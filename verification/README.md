# CHIP-8 interpreter core in Dafny

A model of the interpreter core of `chip-8-rust`. The core is:

- the `Chip` state;
- its fetch / decode / execute `cycle`;
- the per-opcode `op_*` handlers;
- the containers those handlers change: 4096-byte memory with program counter and index register, the sixteen registers V0..VF, the sixteen-slot return stack, the 64 x 32 framebuffer, the sixteen key flags and the two 8-bit timers.

Every component is an immutable datatype with fixed-length sequences. Every operation is a pure function from the state before to the state after.

| file | module | source |
|---|---|---|
| `bits.dfy` | `Bits` | `u8`/`u16` widths, `Option`, bitwise AND, OR and XOR on bytes |
| `memory.dfy` | `AddressSpace` | `src/memory.rs` |
| `registers.dfy` | `RegisterFile` | `src/registers.rs` |
| `stack.dfy` | `CallStack` | `src/stack.rs` |
| `video.dfy` | `Framebuffer` | `src/video.rs` |
| `keypad.dfy` | `KeyState` | `src/keypad.rs` |
| `sprite.dfy` | `Sprite` | the drawing loop of `op_Dxyn` and `byte_to_enumeration` in `src/chip.rs` |
| `opcodes.dfy` | `Opcodes` | the match of `execute_instruction` and the `decode_*` field extractors in `src/chip.rs` |
| `chip.dfy` | `Interpreter` | `Chip::new`, the handlers, the dispatch and `cycle` in `src/chip.rs` |
| `properties.dfy` | `ChipProperties` | what whole cycles do for given instructions in memory |

Conventions:

- **Machine integers.** `u8` and `u16` are bounded integer subset types. Every wrap-around in the source (`wrapping_add`, `wrapping_sub`, `& 0xFF`, the shift overflow) is written out with `% 0x100`.
- **Panics.** Wherever the Rust code panics in a debug build (integer overflow checks on), the model has a precondition:
  - an array index out of range;
  - `u16` overflow in `advance` or `index_register +=`;
  - underflow in `go_back` and in the stack pointer;
  - a push onto a full stack.

  The index panics happen in every build. The `u16` overflow and underflow panics do not: a release build wraps those modulo 0x10000 instead (see "Left out").

  `Interpreter.Executable` collects these per instruction, and `Interpreter.CanCycle` says a cycle does not panic. The exception is the explicit `panic!` for an oversized program image: it is an error value (`RomTooLarge`), so that the 3584/3585-byte boundary can be stated.
- **Decoding.** It is a separate `Instruction` datatype grouped by operand shape: address, register and byte, two registers, one register, draw. `Decode` tests the two literal words, then the family digit, then the guards of that family in source order. Guards of different families test different family digits, so this picks the same arm as the source's flat cascade.
- **Sprite drawing.** `Sprite.DrawRows`/`DrawPixels` are the source's double loop as a fold. The collision is carried as a boolean and written to VF after the loop. This is equivalent because the loop never reads a register. The fold is proved equal to a reference description: the framebuffer with exactly the sprite's set-bit cells toggled, and a collision exactly when one of them was lit.

### Behaviour as written

The handlers are modelled as the source writes them, where that differs from the usual CHIP-8 description:

- `add_inplace` and `sub_inplace` (8xy4, 8xy5) compute with the register numbers x and y, not with the registers' contents.
- Bnnn adds V0 + nnn to the already advanced program counter instead of jumping to V0 + nnn.
- Fx15 stores the digit x itself in the delay timer, not Vx.
- Ex9E and ExA1 test key number x, not key Vx.
- Fx29 points I at the glyph of digit x, not of Vx.
- The source has no `0nnn` arm, so such words, like every unmatched word, only advance pc.

### Assumptions

Some names `src/chip.rs` calls are not defined in the sources: `Registers::shitf_right_inplace`, `sub_n`, `shift_left_inplace`, `slice`, `copy_from`, a public `vx_set`, and `Video::pixel`. Each is a separately named function whose documentation is marked ASSUMPTION:

- 8xy6: VF := bit 0 of Vx, then Vx := Vx >> 1.
- 8xy7: VF := (Vy > Vx), then Vx := (Vy - Vx) mod 256.
- 8xyE: VF := bit 7 of Vx, then Vx := (Vx << 1) mod 256.
- `slice(a, b)` returns registers a..b.
- `copy_from(s)` writes registers 0..|s|.
- `pixel(r, c)` is cell r * 64 + c.

In the three shifts and subtractions, the operands are read before the flag is written, as `add_inplace` does.

## Model

| member | source | states |
|---|---|---|
| `AddressSpace.New` | src/memory.rs:32-42 | pc is 0x200 and I is 0; the 80 font bytes sit at 0x50..0xA0; every other cell is 0 |
| `AddressSpace.Fetch` | src/memory.rs:44-49 | the result's high byte is the cell at pc and its low byte the cell after it (big-endian); pc grows by exactly 2; memory and I are unchanged; needs pc+1 < 4096 |
| `AddressSpace.LoadInstructions` | src/memory.rs:57-63 | rejected exactly when the image is longer than 4096 - 0x200 = 3584 bytes; otherwise the image sits at 0x200 and every other cell, pc and I are unchanged |
| `AddressSpace.LoadKeepsFont` | src/memory.rs:32-63 | loading any image that fits into a fresh memory succeeds and keeps the font table and pc = 0x200 |
| `AddressSpace.Advance` | src/memory.rs:73-75 | pc grows by n, with no wrap (overflow is excluded); memory and I are unchanged |
| `AddressSpace.GoBack` | src/memory.rs:77-79 | pc shrinks by n, with no wrap (underflow is excluded); memory and I are unchanged |
| `AddressSpace.SetAddress` | src/memory.rs:65-67 | pc holds the given address afterwards; the cells and I are unchanged |
| `AddressSpace.GetPointer` | src/memory.rs:69-71 | setting pc to the address reported leaves the memory as it was |
| `AddressSpace.SetAddressThenGetPointer` | src/memory.rs:65-71 | `get_pointer` after `set_address(a)` is a, and a second `set_address` overrides the first |
| `AddressSpace.AdvanceThenGoBack` | src/memory.rs:73-79 | going back by the distance just advanced restores the memory exactly |
| `AddressSpace.Slice` | src/memory.rs:81-83 | the result has to - from bytes, byte i being cell from + i; needs from <= to <= 4096 |
| `AddressSpace.SetIndexRegisterToFontNo` | src/memory.rs:85-87 | I becomes 0x50 + 5 * d; memory and pc are unchanged |
| `AddressSpace.FontGlyphAtIndex` | src/memory.rs:6-23 | with the font in place, the five cells at the new I are glyph d of the font table |
| `AddressSpace.StoreBcdRepr` | src/memory.rs:89-95 | the three cells at I are decimal digits (< 10) and 100 * d0 + 10 * d1 + d2 equals n; no other cell, pc or I changes; needs I + 2 < 4096 |
| `AddressSpace.StoreBcdExamples` | src/memory.rs:89-95 | 123 is stored as 1, 2, 3 and 5 as 0, 0, 5 |
| `AddressSpace.CopyFrom` | src/memory.rs:97-100 | the cells from I on hold src and no other cell, pc or I changes; needs I plus the length of src to be at most 4096 |
| `AddressSpace.CopyFromThenSlice` | src/memory.rs:81-100 | slicing back the range just written returns what was written |
| `RegisterFile.New` | src/registers.rs:8-12 | all sixteen registers are 0 |
| `RegisterFile.Read` | src/registers.rs:14-16 | the value read is the one-register slice at that index |
| `RegisterFile.Set` | src/registers.rs:18-20 | reading register i afterwards gives the value written; every other register is unchanged |
| `RegisterFile.SetIsLocal` | src/registers.rs:14-20 | a write is invisible to a read of any other register; a second write to the same register overrides the first; writing back what was read changes nothing |
| `RegisterFile.VxSet` | src/registers.rs:53-55 | VF holds the value and no other register changes |
| `RegisterFile.AddInplace` | src/registers.rs:22-30 | register lhs := (lhs + rhs) mod 256 of the index arguments; VF := 1 exactly when lhs + rhs > 255 (unless lhs is VF, where the sum wins); nothing else changes |
| `RegisterFile.SubInplace` | src/registers.rs:32-39 | register lhs := (lhs - rhs) mod 256 of the index arguments; VF := 1 exactly when lhs > rhs (unless lhs is VF); nothing else changes |
| `RegisterFile.ArithmeticIgnoresContents` | src/registers.rs:22-39 | the values written by `add_inplace` and `sub_inplace` are the same whatever the registers held |
| `RegisterFile.Or` | src/registers.rs:41-43 | every bit of the result is the OR of that bit of the two registers |
| `RegisterFile.And` | src/registers.rs:45-47 | every bit of the result is the AND of that bit of the two registers |
| `RegisterFile.Xor` | src/registers.rs:49-51 | every bit of the result is the XOR of that bit of the two registers |
| `RegisterFile.ShiftRightInplace` | src/chip.rs:201-203 | ASSUMPTION: Vx halves, VF receives the old bit 0, nothing else changes |
| `RegisterFile.SubN` | src/chip.rs:205-207 | ASSUMPTION: Vx := (Vy - Vx) mod 256, VF := 1 exactly when Vy > Vx, nothing else changes |
| `RegisterFile.ShiftLeftInplace` | src/chip.rs:209-211 | ASSUMPTION: Vx := 2 * Vx mod 256, VF receives the old bit 7, nothing else changes |
| `RegisterFile.ShiftRightThenLeft` | src/chip.rs:201-211 | a right then a left shift of the same register clears its bit 0 and keeps the rest |
| `RegisterFile.Slice` | src/chip.rs:298-301 | ASSUMPTION: the registers from..to, in order |
| `RegisterFile.CopyFrom` | src/chip.rs:303-308 | ASSUMPTION: the first registers hold src, one per byte, and the rest are unchanged |
| `RegisterFile.CopyFromOwnSlice` | src/chip.rs:298-308 | copying a prefix of the registers back onto them changes nothing |
| `CallStack.New` | src/stack.rs:9-14 | sp is 0 and the live contents are empty |
| `CallStack.Top` | src/stack.rs:16-18 | the last live address; needs sp > 0 (the `empty_test_top` panic) |
| `CallStack.Push` | src/stack.rs:20-23 | the live contents gain the address at the top; needs sp < 16 (the `stack_full_push` panic) |
| `CallStack.Pop` | src/stack.rs:25-29 | the returned address appended to the new live contents gives the old ones; needs sp > 0 (the `stack_empty_pop` panic) |
| `CallStack.PushThenTop` | src/stack.rs:43-50 | after `push(a)`, `top()` is a |
| `CallStack.PushThenPop` | src/stack.rs:20-29 | `push(a)` then `pop()` returns a and restores the live contents and sp |
| `CallStack.PushThenPopAll` | src/stack.rs:52-63 | pushing a sequence onto a new stack and popping until empty yields it reversed (loop invariants) |
| `CallStack.StackPopTest` | src/stack.rs:52-63 | pushing 0..15 and popping sixteen times yields 15, 14, ..., 0 |
| `KeyState.New` | src/keypad.rs:8-12 | no key is pressed |
| `KeyState.IsPressed` | src/keypad.rs:14-16 | key k is reported pressed exactly when the search from k finds k itself; when it is pressed, `get_pressed` reports some key no greater than k |
| `KeyState.FindPressedFrom` | src/keypad.rs:18-24 | none exactly when no key from i on is pressed; otherwise the first pressed key from i on |
| `KeyState.GetPressed` | src/keypad.rs:18-24 | None exactly when no key is pressed; otherwise a pressed key below 16 with no pressed key below it |
| `Framebuffer.New` | src/video.rs:8-12 | every cell is 0 |
| `Framebuffer.Clear` | src/video.rs:14-16 | every cell is 0 and the buffer keeps its 2048 cells |
| `Framebuffer.ClearIsNew` | src/video.rs:8-16 | clearing is idempotent, yields the initial framebuffer, and leaves only off/on cells |
| `Framebuffer.PixelIndex` | src/chip.rs:241-243 | ASSUMPTION: a cell index below 2048 whose row (index / 64) and column (index mod 64) are the arguments |
| `Sprite.ByteToEnumeration` | src/chip.rs:311-323 | eight entries, entry col non-zero exactly when bit 7 - col of the byte is set (most significant bit first) |
| `Sprite.CellCoordinates` | src/chip.rs:241-243 | the wrapped cell of sprite position (row, col) gives back row and col, so distinct positions never share a cell |
| `Sprite.DrawPixels` | src/chip.rs:240-250 | the inner loop over a row's columns visits exactly that row's set-bit cells, in order |
| `Sprite.DrawRows` | src/chip.rs:239-251 | the outer loop over rows visits exactly the sprite's set-bit cells, row after row |
| `Sprite.ToggleFoldAppend` | src/chip.rs:239-251 | visiting two lists of cells in turn is visiting their concatenation |
| `Sprite.ToggleFoldDistinct` | src/chip.rs:244-248 | visiting cells that occur once each toggles exactly those cells and reports a collision exactly when one of them was lit |
| `Sprite.RowCellsFacts` | src/chip.rs:240-243 | a row's cells lie in that row, at the columns visited, and none repeats |
| `Sprite.SpriteCellsFacts` | src/chip.rs:239-243 | for at most 32 rows every cell lies in one of the sprite's rows and none repeats |
| `Sprite.SpriteCellsExact` | src/chip.rs:239-250 | the touched cells are exactly the wrapped cells ((y + row) mod 32, (x + col) mod 64) of the set bits |
| `Sprite.DrawSprite` | src/chip.rs:239-251 | the framebuffer afterwards is the old one with exactly the sprite's set-bit cells toggled; the collision flag is set exactly when one of them was lit |
| `Sprite.DrawTwiceRestores` | src/chip.rs:244-248 | drawing the same sprite at the same place twice restores the framebuffer |
| `Sprite.DrawKeepsCanonical` | src/chip.rs:244-248 | on a framebuffer of off/on cells, drawing keeps every cell off or on |
| `Sprite.CollisionMeansErased` | src/chip.rs:244-248 | on a framebuffer of off/on cells, a collision is reported exactly when drawing switched some lit cell off |
| `Opcodes.DecodeAll` | src/chip.rs:341-343 | nnn is what is left of the word below its family digit: the word is family * 0x1000 + nnn |
| `Opcodes.DecodeFst` | src/chip.rs:325-327 | x is the top digit of nnn |
| `Opcodes.DecodeBytes` | src/chip.rs:337-339 | kk is the low byte of nnn |
| `Opcodes.DecodeSnd` | src/chip.rs:329-331 | y is the high digit of kk |
| `Opcodes.DecodeThrd` | src/chip.rs:333-335 | n is the low digit of kk |
| `Opcodes.Decode` | src/chip.rs:62-129 | 00E0 and only 00E0 decodes to Cls, 00EE and only 00EE to Ret, and an unmatched word is carried as is; `DecodeUnknown`, `EncodeDecode` and `DecodeEncode` tie it to the independent opcode table and to `Encode` |
| `Opcodes.WordFields` | src/chip.rs:325-343 | the family digit, x, y, n, kk and nnn of a word built from four hex digits are those digits and their combinations |
| `Opcodes.FieldsCompose` | src/chip.rs:325-343 | any word is rebuilt from its family digit, x, y and n, and kk and nnn are its low byte and low 12 bits |
| `Opcodes.DecodeUnknown` | src/chip.rs:64-129 | a word falls through to the unknown-instruction arm exactly when it matches no pattern of the independent opcode table, and it is then kept as is |
| `Opcodes.EncodeDecode` | src/chip.rs:64-129 | every word is the encoding of the instruction it decodes to: decoding loses no bits |
| `Opcodes.DecodeEncode` | src/chip.rs:64-129 | every instruction decodes back from its encoding: each arm is reachable and receives the operands it was built from |
| `Opcodes.DecodeExamples` | src/chip.rs:64-129 | 00E0 and 00EE are matched before the family guards; 0123, 5121, 8AB8 and E39F match no arm |
| `Interpreter.New` | src/chip.rs:24-35 | pc is 0x200 and I is 0; the font is in place and every other memory cell is 0; every register is 0; every screen cell is off; the stack is empty; no key is pressed; both timers are 0 |
| `Interpreter.CountDown` | src/chip.rs:54-60 | the timer after one countdown has ticked: one lower, or still zero when it was zero |
| `Interpreter.Op00E0` | src/chip.rs:133-135 | every cell is 0; memory, registers, stack, keys and timers are unchanged |
| `Interpreter.Op00EE` | src/chip.rs:137-139 | pc becomes the popped top of the stack, which loses it; memory, I, registers and screen are unchanged |
| `Interpreter.Op1nnn` | src/chip.rs:141-143 | pc becomes nnn and nothing else changes |
| `Interpreter.Op2nnn` | src/chip.rs:145-148 | the current pc is pushed and pc becomes nnn; memory, I, registers and screen are unchanged |
| `Interpreter.SkipIf` | src/chip.rs:150-154 | pc grows by 2 when the condition holds and stays otherwise; nothing else changes |
| `Interpreter.Op3xkk` | src/chip.rs:150-154 | pc grows by 2 exactly when Vx equals kk; nothing else changes |
| `Interpreter.Op4xkk` | src/chip.rs:156-160 | pc grows by 2 exactly when Vx differs from kk; nothing else changes |
| `Interpreter.Op5xy0` | src/chip.rs:162-166 | pc grows by 2 exactly when Vx equals Vy; nothing else changes |
| `Interpreter.Op6xkk` | src/chip.rs:168-170 | Vx holds kk and every other register and all other state are unchanged |
| `Interpreter.Op7xkk` | src/chip.rs:172-175 | Vx holds (Vx + kk) mod 256 and every other register, VF included, is unchanged |
| `Interpreter.Op8xy0` | src/chip.rs:177-179 | Vx holds Vy and nothing else changes |
| `Interpreter.Op8xy1` | src/chip.rs:181-183 | every bit of Vx becomes the OR of that bit of Vx and Vy; no other register, VF included, changes |
| `Interpreter.Op8xy2` | src/chip.rs:185-187 | every bit of Vx becomes the AND of that bit of Vx and Vy; no other register changes |
| `Interpreter.Op8xy3` | src/chip.rs:189-191 | every bit of Vx becomes the XOR of that bit of Vx and Vy; no other register changes |
| `Interpreter.Op8xy4` | src/chip.rs:193-195 | Vx := (x + y) mod 256 of the register numbers; VF := 0 unless x is VF, since x + y never exceeds 30; only Vx and VF change |
| `Interpreter.Op8xy5` | src/chip.rs:197-199 | Vx := (x - y) mod 256 of the register numbers; unless x is VF, VF := 1 exactly when x > y; only Vx and VF change |
| `Interpreter.Op8xy6` | src/chip.rs:201-203 | ASSUMPTION: Vx halves and VF receives its old bit 0; only Vx and VF change |
| `Interpreter.Op8xy7` | src/chip.rs:205-207 | ASSUMPTION: Vx := (Vy - Vx) mod 256, VF := 1 exactly when Vy > Vx; only Vx and VF change |
| `Interpreter.Op8xyE` | src/chip.rs:209-211 | ASSUMPTION: Vx := 2 * Vx mod 256 and VF receives its old bit 7; only Vx and VF change |
| `Interpreter.Op9xy0` | src/chip.rs:213-217 | pc grows by 2 exactly when Vx differs from Vy; nothing else changes |
| `Interpreter.OpAnnn` | src/chip.rs:219-221 | I becomes nnn; memory, pc, registers, screen, stack, keys and timers are unchanged |
| `Interpreter.OpBnnn` | src/chip.rs:223-225 | pc grows by V0 + nnn (relative to the advanced pc) and nothing else changes; needs the sum to stay below 0x10000 |
| `Interpreter.OpCxkk` | src/chip.rs:227-229 | every bit of Vx is the AND of that bit of the random byte and kk; no other register changes |
| `Interpreter.OpDxyn` | src/chip.rs:231-252 | the screen gets exactly the cells of the n-byte sprite at I, placed at (Vx, Vy) read before VF is cleared, toggled; VF is 1 exactly when one of them was lit, else 0; only VF among the registers changes; an off/on screen stays off/on; needs I + n <= 4096 |
| `Interpreter.OpEx9E` | src/chip.rs:254-258 | pc grows by 2 exactly when key number x is pressed; nothing else changes |
| `Interpreter.OpExA1` | src/chip.rs:260-264 | pc grows by 2 exactly when key number x is not pressed; nothing else changes |
| `Interpreter.OpFx07` | src/chip.rs:266-268 | Vx holds the delay timer and nothing else changes |
| `Interpreter.OpFx0A` | src/chip.rs:270-276 | with a key pressed, Vx holds the lowest pressed key number; otherwise pc goes back by 2 and nothing else changes |
| `Interpreter.OpFx15` | src/chip.rs:278-280 | the delay timer holds the digit x and nothing else changes |
| `Interpreter.OpFx18` | src/chip.rs:282-284 | the sound timer holds Vx and nothing else changes |
| `Interpreter.OpFx1E` | src/chip.rs:286-288 | I grows by Vx, with no wrap (overflow is excluded); memory, pc, registers, screen, stack, keys and timers are unchanged |
| `Interpreter.OpFx29` | src/chip.rs:290-292 | I points at 0x50 + 5 * x, the glyph of digit x; nothing else changes |
| `Interpreter.OpFx33` | src/chip.rs:294-296 | the three cells at I are the decimal digits of Vx; no other cell and no other state changes |
| `Interpreter.OpFx55` | src/chip.rs:298-301 | cells I..I+x hold V0..Vx; no other cell changes; I, pc and the registers are unchanged |
| `Interpreter.OpFx65` | src/chip.rs:303-308 | V0..Vx hold cells I..I+x; the registers above x and all other state are unchanged |
| `Interpreter.Execute` | src/chip.rs:63-131 | running any executable instruction leaves the keys alone, keeps the screen off/on only, and leaves the timers alone unless it is Fx15 or Fx18; an unknown word changes nothing; the `Execute...Arms` lemmas below and `ChipProperties.ExecuteSkip` state which effect each arm has |
| `Interpreter.Fetched` | src/chip.rs:49-50 | the fetched word's bytes are the cells at pc and pc+1; the state is the old one with pc advanced by 2 |
| `Interpreter.ExecuteScreenArms` | src/chip.rs:65-117 | 00E0 turns every cell off; Dxyn toggles exactly the sprite's set-bit cells and sets VF to the collision bit; both keep memory and the stack |
| `Interpreter.ExecuteControlArms` | src/chip.rs:66-123 | 00EE pops the top of the stack into pc and keeps the rest; Fx15 sets only the delay timer, to x; Fx18 sets only the sound timer, to Vx; Fx0A writes the lowest pressed key to Vx and nothing else, or with no key down moves pc back by 2 and nothing else |
| `Interpreter.ExecuteAddrArms` | src/chip.rs:67-111 | 1nnn sets pc to nnn; 2nnn pushes pc and jumps to nnn; Annn sets I to nnn; Bnnn moves pc on by V0 + nnn; each keeps the rest its table entry does not name |
| `Interpreter.ExecuteImmArms` | src/chip.rs:78-114 | 6xkk writes kk to Vx; 7xkk writes (Vx + kk) mod 256 to Vx; Cxkk writes the random byte AND kk, bit by bit; only Vx changes |
| `Interpreter.ExecuteLogicArms` | src/chip.rs:84-95 | 8xy0 copies Vy to Vx, 8xy1/8xy2/8xy3 write the bitwise OR/AND/XOR of Vx and Vy; only Vx changes, VF is not written |
| `Interpreter.ExecuteArithArms` | src/chip.rs:96-106 | 8xy4 and 8xy5 write the sum/difference of the register numbers, 8xy6/8xyE shift Vx with the shifted-out bit in VF, 8xy7 writes Vy - Vx with the no-borrow flag; only Vx and VF change |
| `Interpreter.ExecuteIndexArms` | src/chip.rs:120-125 | Fx07 writes the delay timer to Vx; Fx1E adds Vx to I; Fx29 points I at glyph x; nothing else changes |
| `Interpreter.ExecuteMemoryArms` | src/chip.rs:126-128 | Fx33 writes the decimal digits of Vx at I; Fx55 writes V0..Vx at I..I+x; both keep every other cell and the rest of the state; Fx65 reads I..I+x into V0..Vx and keeps the higher registers and the rest of the state |
| `Interpreter.Cycle` | src/chip.rs:49-61 | the result is the fetched instruction executed on the state with pc moved past it, with both timers then counted down once (one lower, or staying 0); the keys are unchanged and the screen stays off/on only; an unknown word changes only pc (by 2) and the timers |
| `ChipProperties.FetchAt` | src/memory.rs:44-49 | when the two cells at pc spell an instruction, the fetched word is its encoding and decodes back to it |
| `ChipProperties.CycleUnknown` | src/chip.rs:129 | a cycle on an unmatched word moves pc past it, ticks both timers, and changes nothing else |
| `ChipProperties.ExecuteSkip` | src/chip.rs:150-166 | each of 3xkk, 4xkk, 5xy0, 9xy0, Ex9E, ExA1 moves pc by 2 exactly when its table condition holds and changes nothing else |
| `ChipProperties.CycleSkip` | src/chip.rs:49-61 | a cycle on a skip moves pc by 4 when its condition holds and by 2 otherwise; registers, memory, I, stack and screen are unchanged and the timers tick |
| `ChipProperties.CycleCall` | src/chip.rs:145-148 | a cycle on 2nnn continues at nnn with the address just past the call pushed; registers, memory, I, screen and keys are unchanged |
| `ChipProperties.CycleReturn` | src/chip.rs:137-139 | a cycle on 00EE continues at the top of the stack and removes it; registers, memory, I, screen and keys are unchanged |
| `ChipProperties.CycleCallReturn` | src/chip.rs:137-148 | a call to a routine that starts with 00EE comes back just past the call with the stack as before |
| `ChipProperties.CycleSetDelay` | src/chip.rs:278-280 | a cycle on Fx15 leaves the delay timer at x counted down once: x - 1, or 0 when x is 0; the sound timer ticks, pc moves on by 2 and nothing else changes |
| `ChipProperties.CycleSetSound` | src/chip.rs:282-284 | a cycle on Fx18 leaves the sound timer at Vx counted down once; the delay timer ticks, pc moves on by 2 and nothing else changes |
| `ChipProperties.CycleWaitNoKey` | src/chip.rs:270-276 | with no key pressed, a cycle on Fx0A leaves pc on the same instruction, so the next cycle fetches it again; apart from both timers ticking once, nothing changes |
| `ChipProperties.CycleWaitKey` | src/chip.rs:270-276 | with key k the lowest pressed, a cycle on Fx0A stores k in Vx, changes no other register and moves on by 2; memory, I, stack, screen and keys are unchanged and both timers tick once |
| `ChipProperties.StoreThenLoadRegs` | src/chip.rs:298-308 | Fx55 then Fx65 with the same x leaves the registers as they were |
| `ChipProperties.DrawTwiceRestoresScreen` | src/chip.rs:231-252 | Dxyn twice with the same operands restores the screen when neither x nor y is VF |
| `ChipProperties.DrawCollision` | src/chip.rs:231-252 | on an off/on screen, Dxyn leaves VF at 1 exactly when it switched some lit cell off |
| `ChipProperties.LoadFontSelectsGlyph` | src/chip.rs:290-292 | with the font in place, after Fx29 the five bytes a Dxy5 would draw are glyph x |

## Left out

- `src/platform.rs` (SDL window, texture and events) and `run` in `src/lib.rs` (the paced main loop) are user interface and wall-clock code over a foreign library.
- `src/random.rs`, the random-number generator, is nondeterministic and foreign. Cxkk takes the random byte as a parameter of `Interpreter.Execute` and `Interpreter.Cycle`.
- `Memory::load_rom` reads a file. `AddressSpace.LoadInstructions` models the loading of the bytes it reads.
- The `eprintln!` diagnostic of the unknown-instruction arm is output only. The arm is modelled as changing nothing.
- The source has no way to press or release a key, so the key array is input state. `Chip::get_keypad` and `get_video` only hand out references.
- Rust's `u8` arithmetic `val + 1` in Fx55/Fx65 cannot overflow for a 4-bit operand, and `set_index_register_to_font_no` computes `5 * font_no` in `usize` before its `as u16` cast, which keeps every value for a 4-bit digit. Both are written as plain integer arithmetic.
- AddressSpace.Advance: a `u16` overflow of pc is a precondition, as in a debug build; the wrap modulo 0x10000 of a release build is not modelled.
- AddressSpace.GoBack: a `u16` underflow of pc is a precondition, as in a debug build; the release-build wrap is not modelled.
- Interpreter.OpFx1E: `index_register += Vx` overflowing `u16` is a precondition, as in a debug build; a release build wraps I modulo 0x10000, which repeated Fx1E steps can reach, and that wrap is not modelled.
- Interpreter.OpBnnn: pc + V0 + nnn overflowing `u16` is a precondition (it goes through `advance`); the release-build wrap is not modelled.
