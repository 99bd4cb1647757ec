/**
 The interpreter of `src/chip.rs`: the machine state, one function per
 `op_*` handler, the dispatch of a decoded instruction, and `cycle`.

 Each handler is a pure function from the state before to the state after.
 Where the Rust code would panic (an index out of range, a debug-build `u16` overflow or
 underflow, an empty or full stack), the handler has a precondition, and
 `Executable` collects these per instruction. The random byte of `Cxkk` is a
 parameter; the random-number generator itself is not modelled.
 */
module Interpreter {
  import opened Bits
  import opened Opcodes
  import Mem = AddressSpace
  import Regs = RegisterFile
  import Stk = CallStack
  import Fb = Framebuffer
  import Keys = KeyState
  import Sprite

  /** The interpreter state (`struct Chip` without the random-number generator). */
  datatype Chip = Chip(
    memory: Mem.Memory,
    video: Fb.Video,
    stack: Stk.Stack,
    registers: Regs.Registers,
    keypad: Keys.Keypad,
    delayTimer: Byte,
    soundTimer: Byte)

  /**
   `Chip::new`: every component fresh, both timers zero. Memory holds the font
   and zeros elsewhere, with pc at the program start and I at 0; every
   register is 0, every screen cell is off, the stack is empty and no key is
   pressed.
   */
  function New(): (c: Chip)
    ensures c.memory.pc == Mem.START_ADDRESS && c.memory.indexRegister == 0
    ensures Mem.FontIntact(c.memory)
    ensures forall i :: 0 <= i < Mem.MEMORY_SIZE && !(Mem.FONTSET_START_ADDRESS <= i < Mem.FONTSET_END) ==>
      c.memory.buf[i] == 0
    ensures forall r :: 0 <= r < Regs.REGISTERS_NUM ==> c.registers.regs[r] == 0
    ensures forall i :: 0 <= i < Fb.VIDEO_SIZE ==> c.video.buf[i] == 0
    ensures Stk.Contents(c.stack) == [] && Fb.Canonical(c.video)
    ensures forall k :: 0 <= k < Keys.KEYS_NUM ==> !c.keypad.keys[k]
    ensures c.delayTimer == 0 && c.soundTimer == 0
  {
    Chip(Mem.New(), Fb.New(), Stk.New(), Regs.New(), Keys.New(), 0, 0)
  }

  /** Register `r` of the state. */
  function V(c: Chip, r: Nibble): Byte
  {
    c.registers.regs[r]
  }

  function Pc(c: Chip): U16
  {
    c.memory.pc
  }

  /** Everything but the program counter is as in `c`. */
  predicate OnlyPcChanged(c: Chip, c': Chip)
  {
    c'.memory.buf == c.memory.buf && c'.memory.indexRegister == c.memory.indexRegister &&
    c'.video == c.video && c'.stack == c.stack && c'.registers == c.registers &&
    c'.keypad == c.keypad && c'.delayTimer == c.delayTimer && c'.soundTimer == c.soundTimer
  }

  /** Everything but the registers is as in `c`. */
  predicate OnlyRegistersChanged(c: Chip, c': Chip)
  {
    c'.memory == c.memory && c'.video == c.video && c'.stack == c.stack &&
    c'.keypad == c.keypad && c'.delayTimer == c.delayTimer && c'.soundTimer == c.soundTimer
  }

  /** The keypad and both timers are as in `c`. */
  predicate SameKeysAndTimers(c: Chip, c': Chip)
  {
    c'.keypad == c.keypad && c'.delayTimer == c.delayTimer && c'.soundTimer == c.soundTimer
  }

  /** Register `r` holds `v` and every other register is as in `c`. */
  predicate RegisterWritten(c: Chip, c': Chip, r: Nibble, v: Byte)
  {
    V(c', r) == v && Regs.SameExcept(c.registers, c'.registers, r, r) && OnlyRegistersChanged(c, c')
  }

  // ---------------------------------------------------------------- handlers

  /** `op_00E0`: clear the screen. */
  function Op00E0(c: Chip): (c': Chip)
    ensures forall i :: 0 <= i < Fb.VIDEO_SIZE ==> c'.video.buf[i] == 0
    ensures c'.memory == c.memory && c'.registers == c.registers && c'.stack == c.stack
    ensures SameKeysAndTimers(c, c')
  {
    c.(video := Fb.Clear(c.video))
  }

  /** `op_00EE`: pop the return address into pc; panics on an empty stack. */
  function Op00EE(c: Chip): (c': Chip)
    requires c.stack.sp > 0
    ensures Stk.Contents(c'.stack) + [Pc(c')] == Stk.Contents(c.stack)
    ensures c'.memory.buf == c.memory.buf && c'.memory.indexRegister == c.memory.indexRegister
    ensures c'.registers == c.registers && c'.video == c.video && SameKeysAndTimers(c, c')
  {
    var (address, stack) := Stk.Pop(c.stack);
    c.(memory := Mem.SetAddress(c.memory, address), stack := stack)
  }

  /** `op_1nnn`: jump. */
  function Op1nnn(c: Chip, addr: Addr): (c': Chip)
    ensures Pc(c') == addr && OnlyPcChanged(c, c')
  {
    c.(memory := Mem.SetAddress(c.memory, addr))
  }

  /** `op_2nnn`: push the (already advanced) pc, then jump; panics on a full stack. */
  function Op2nnn(c: Chip, addr: Addr): (c': Chip)
    requires c.stack.sp < Stk.STACK_SIZE
    ensures Stk.Contents(c'.stack) == Stk.Contents(c.stack) + [Pc(c)]
    ensures Pc(c') == addr
    ensures c'.memory.buf == c.memory.buf && c'.memory.indexRegister == c.memory.indexRegister
    ensures c'.registers == c.registers && c'.video == c.video && SameKeysAndTimers(c, c')
  {
    var stack := Stk.Push(c.stack, Mem.GetPointer(c.memory));
    c.(stack := stack, memory := Mem.SetAddress(c.memory, addr))
  }

  /** Advance pc by 2 when `cond` holds (the body shared by every conditional skip). */
  function SkipIf(c: Chip, cond: bool): (c': Chip)
    requires cond ==> Pc(c) + 2 < 0x1_0000
    ensures Pc(c') == if cond then Pc(c) + 2 else Pc(c)
    ensures OnlyPcChanged(c, c')
  {
    if cond then c.(memory := Mem.Advance(c.memory, 2)) else c
  }

  /** `op_3xkk`: skip when Vx == kk. */
  function Op3xkk(c: Chip, reg: Nibble, byte: Byte): (c': Chip)
    requires V(c, reg) == byte ==> Pc(c) + 2 < 0x1_0000
    ensures Pc(c') == if V(c, reg) == byte then Pc(c) + 2 else Pc(c)
    ensures OnlyPcChanged(c, c')
  {
    SkipIf(c, Regs.Read(c.registers, reg) == byte)
  }

  /** `op_4xkk`: skip when Vx != kk. */
  function Op4xkk(c: Chip, reg: Nibble, byte: Byte): (c': Chip)
    requires V(c, reg) != byte ==> Pc(c) + 2 < 0x1_0000
    ensures Pc(c') == if V(c, reg) != byte then Pc(c) + 2 else Pc(c)
    ensures OnlyPcChanged(c, c')
  {
    SkipIf(c, Regs.Read(c.registers, reg) != byte)
  }

  /** `op_5xy0`: skip when Vx == Vy. */
  function Op5xy0(c: Chip, reg1: Nibble, reg2: Nibble): (c': Chip)
    requires V(c, reg1) == V(c, reg2) ==> Pc(c) + 2 < 0x1_0000
    ensures Pc(c') == if V(c, reg1) == V(c, reg2) then Pc(c) + 2 else Pc(c)
    ensures OnlyPcChanged(c, c')
  {
    SkipIf(c, Regs.Read(c.registers, reg1) == Regs.Read(c.registers, reg2))
  }

  /** `op_9xy0`: skip when Vx != Vy. */
  function Op9xy0(c: Chip, fst: Nibble, snd: Nibble): (c': Chip)
    requires V(c, fst) != V(c, snd) ==> Pc(c) + 2 < 0x1_0000
    ensures Pc(c') == if V(c, fst) != V(c, snd) then Pc(c) + 2 else Pc(c)
    ensures OnlyPcChanged(c, c')
  {
    SkipIf(c, Regs.Read(c.registers, fst) != Regs.Read(c.registers, snd))
  }

  /** `op_Ex9E`: skip when key number x (not Vx) is pressed. */
  function OpEx9E(c: Chip, key: Nibble): (c': Chip)
    requires c.keypad.keys[key] ==> Pc(c) + 2 < 0x1_0000
    ensures Pc(c') == if c.keypad.keys[key] then Pc(c) + 2 else Pc(c)
    ensures OnlyPcChanged(c, c')
  {
    SkipIf(c, Keys.IsPressed(c.keypad, key))
  }

  /** `op_ExA1`: skip when key number x (not Vx) is not pressed. */
  function OpExA1(c: Chip, key: Nibble): (c': Chip)
    requires !c.keypad.keys[key] ==> Pc(c) + 2 < 0x1_0000
    ensures Pc(c') == if !c.keypad.keys[key] then Pc(c) + 2 else Pc(c)
    ensures OnlyPcChanged(c, c')
  {
    SkipIf(c, !Keys.IsPressed(c.keypad, key))
  }

  /** `op_6xkk`: Vx := kk. */
  function Op6xkk(c: Chip, reg: Nibble, val: Byte): (c': Chip)
    ensures RegisterWritten(c, c', reg, val)
  {
    c.(registers := Regs.Set(c.registers, reg, val))
  }

  /** `op_7xkk`: Vx := Vx + kk, wrapping, with no flag. */
  function Op7xkk(c: Chip, reg: Nibble, val: Byte): (c': Chip)
    ensures RegisterWritten(c, c', reg, (V(c, reg) + val) % 0x100)
  {
    var value := Regs.Read(c.registers, reg);
    c.(registers := Regs.Set(c.registers, reg, (value + val) % 0x100))
  }

  /** `op_8xy0`: Vx := Vy. */
  function Op8xy0(c: Chip, reg1: Nibble, reg2: Nibble): (c': Chip)
    ensures RegisterWritten(c, c', reg1, V(c, reg2))
  {
    c.(registers := Regs.Set(c.registers, reg1, Regs.Read(c.registers, reg2)))
  }

  /** `op_8xy1`: Vx := Vx | Vy; no flag is written. */
  function Op8xy1(c: Chip, reg1: Nibble, reg2: Nibble): (c': Chip)
    ensures Regs.SameExcept(c.registers, c'.registers, reg1, reg1) && OnlyRegistersChanged(c, c')
    ensures forall k :: 0 <= k < 8 ==> (Bit(V(c', reg1), k) <==> Bit(V(c, reg1), k) || Bit(V(c, reg2), k))
  {
    c.(registers := Regs.Set(c.registers, reg1, Regs.Or(c.registers, reg1, reg2)))
  }

  /** `op_8xy2`: Vx := Vx & Vy; no flag is written. */
  function Op8xy2(c: Chip, reg1: Nibble, reg2: Nibble): (c': Chip)
    ensures Regs.SameExcept(c.registers, c'.registers, reg1, reg1) && OnlyRegistersChanged(c, c')
    ensures forall k :: 0 <= k < 8 ==> (Bit(V(c', reg1), k) <==> Bit(V(c, reg1), k) && Bit(V(c, reg2), k))
  {
    c.(registers := Regs.Set(c.registers, reg1, Regs.And(c.registers, reg1, reg2)))
  }

  /** `op_8xy3`: Vx := Vx ^ Vy; no flag is written. */
  function Op8xy3(c: Chip, reg1: Nibble, reg2: Nibble): (c': Chip)
    ensures Regs.SameExcept(c.registers, c'.registers, reg1, reg1) && OnlyRegistersChanged(c, c')
    ensures forall k :: 0 <= k < 8 ==> (Bit(V(c', reg1), k) <==> Bit(V(c, reg1), k) != Bit(V(c, reg2), k))
  {
    c.(registers := Regs.Set(c.registers, reg1, Regs.Xor(c.registers, reg1, reg2)))
  }

  /** `op_8xy4`: `add_inplace(x, y)`, which adds the register numbers x and y, not their contents. */
  function Op8xy4(c: Chip, reg1: Nibble, reg2: Nibble): (c': Chip)
    ensures V(c', reg1) == (reg1 + reg2) % 0x100
    ensures reg1 != Regs.VF ==> V(c', Regs.VF) == 0
    ensures Regs.SameExcept(c.registers, c'.registers, reg1, Regs.VF) && OnlyRegistersChanged(c, c')
  {
    c.(registers := Regs.AddInplace(c.registers, reg1, reg2))
  }

  /** `op_8xy5`: `sub_inplace(x, y)`, on the register numbers x and y. */
  function Op8xy5(c: Chip, lhs: Nibble, rhs: Nibble): (c': Chip)
    ensures V(c', lhs) == (lhs - rhs) % 0x100
    ensures lhs != Regs.VF ==> V(c', Regs.VF) == if lhs > rhs then 1 else 0
    ensures Regs.SameExcept(c.registers, c'.registers, lhs, Regs.VF) && OnlyRegistersChanged(c, c')
  {
    c.(registers := Regs.SubInplace(c.registers, lhs, rhs))
  }

  /** `op_8xy6`: shift Vx right, bit 0 to VF. */
  function Op8xy6(c: Chip, reg: Nibble): (c': Chip)
    ensures V(c', reg) == V(c, reg) / 2
    ensures reg != Regs.VF ==> V(c', Regs.VF) == V(c, reg) % 2
    ensures Regs.SameExcept(c.registers, c'.registers, reg, Regs.VF) && OnlyRegistersChanged(c, c')
  {
    c.(registers := Regs.ShiftRightInplace(c.registers, reg))
  }

  /** `op_8xy7`: Vx := Vy - Vx, wrapping, VF := no borrow. */
  function Op8xy7(c: Chip, reg1: Nibble, reg2: Nibble): (c': Chip)
    ensures V(c', reg1) == (V(c, reg2) - V(c, reg1)) % 0x100
    ensures reg1 != Regs.VF ==> V(c', Regs.VF) == if V(c, reg2) > V(c, reg1) then 1 else 0
    ensures Regs.SameExcept(c.registers, c'.registers, reg1, Regs.VF) && OnlyRegistersChanged(c, c')
  {
    c.(registers := Regs.SubN(c.registers, reg1, reg2))
  }

  /** `op_8xyE`: shift Vx left, bit 7 to VF. */
  function Op8xyE(c: Chip, reg: Nibble): (c': Chip)
    ensures V(c', reg) == (2 * V(c, reg)) % 0x100
    ensures reg != Regs.VF ==> V(c', Regs.VF) == V(c, reg) / 0x80
    ensures Regs.SameExcept(c.registers, c'.registers, reg, Regs.VF) && OnlyRegistersChanged(c, c')
  {
    c.(registers := Regs.ShiftLeftInplace(c.registers, reg))
  }

  /** `op_Annn`: I := nnn. */
  function OpAnnn(c: Chip, address: Addr): (c': Chip)
    ensures c'.memory.indexRegister == address
    ensures c'.memory.buf == c.memory.buf && c'.memory.pc == c.memory.pc && c'.registers == c.registers
    ensures c'.video == c.video && c'.stack == c.stack && SameKeysAndTimers(c, c')
  {
    c.(memory := c.memory.(indexRegister := address))
  }

  /** `op_Bnnn`: pc += V0 + nnn (a relative jump from the advanced pc); panics on `u16` overflow in a debug build. */
  function OpBnnn(c: Chip, address: Addr): (c': Chip)
    requires Pc(c) + V(c, 0) + address < 0x1_0000
    ensures Pc(c') == Pc(c) + V(c, 0) + address && OnlyPcChanged(c, c')
  {
    c.(memory := Mem.Advance(c.memory, Regs.Read(c.registers, 0) + address))
  }

  /** `op_Cxkk`: Vx := r & kk for the random byte `r`. */
  function OpCxkk(c: Chip, fst: Nibble, snd: Byte, random: Byte): (c': Chip)
    ensures Regs.SameExcept(c.registers, c'.registers, fst, fst) && OnlyRegistersChanged(c, c')
    ensures forall k :: 0 <= k < 8 ==> (Bit(V(c', fst), k) <==> Bit(random, k) && Bit(snd, k))
  {
    var v := BitAnd(random, snd);
    forall k | 0 <= k < 8
      ensures Bit(v, k) <==> Bit(random, k) && Bit(snd, k)
    {
      BitwiseBit(AndOp, random, snd, 8, k);
    }
    c.(registers := Regs.Set(c.registers, fst, v))
  }

  /** The sprite `Dxyn` draws: the `n` bytes at I. */
  function SpriteAt(c: Chip, height: Nibble): seq<Byte>
    requires c.memory.indexRegister + height <= Mem.MEMORY_SIZE
  {
    Mem.Slice(c.memory, c.memory.indexRegister, c.memory.indexRegister + height)
  }

  /** The cells `Dxyn` toggles: the set bits of the sprite at (Vx, Vy), read before VF is cleared. */
  function DrawCells(c: Chip, vx: Nibble, vy: Nibble, height: Nibble): seq<Sprite.Cell>
    requires c.memory.indexRegister + height <= Mem.MEMORY_SIZE
  {
    Sprite.SpriteCells(SpriteAt(c, height), V(c, vx), V(c, vy), 0)
  }

  /**
   `op_Dxyn`: read Vx and Vy, clear VF, XOR the `n`-byte sprite at I onto the
   screen at (Vx, Vy), and set VF to 1 when a set bit met a lit cell.
   Panics when the sprite runs past the end of memory.
   */
  function OpDxyn(c: Chip, vx: Nibble, vy: Nibble, height: Nibble): (c': Chip)
    requires c.memory.indexRegister + height <= Mem.MEMORY_SIZE
    ensures c'.video.buf == Sprite.Toggled(c.video.buf, DrawCells(c, vx, vy, height))
    ensures V(c', Regs.VF) == if Sprite.AnyLit(c.video.buf, DrawCells(c, vx, vy, height)) then 1 else 0
    ensures Regs.SameExcept(c.registers, c'.registers, Regs.VF, Regs.VF)
    ensures c'.memory == c.memory && c'.stack == c.stack && SameKeysAndTimers(c, c')
    ensures Fb.Canonical(c.video) ==> Fb.Canonical(c'.video)
  {
    var sprite := SpriteAt(c, height);
    var xPos := Regs.Read(c.registers, vx);
    var yPos := Regs.Read(c.registers, vy);
    var cleared := Regs.VxSet(c.registers, 0);
    var drawn := Sprite.DrawSprite(c.video.buf, sprite, xPos, yPos);
    var flagged := if drawn.1 then Regs.VxSet(cleared, 1) else cleared;
    assert Regs.SameExcept(c.registers, flagged, Regs.VF, Regs.VF);
    Sprite.DrawKeepsCanonical(c.video, sprite, xPos, yPos);
    c.(video := Fb.Video(drawn.0), registers := flagged)
  }

  /** `op_Fx07`: Vx := delay timer. */
  function OpFx07(c: Chip, reg: Nibble): (c': Chip)
    ensures RegisterWritten(c, c', reg, c.delayTimer)
  {
    c.(registers := Regs.Set(c.registers, reg, c.delayTimer))
  }

  /**
   `op_Fx0A`: with a key pressed, Vx := the lowest pressed key number;
   otherwise pc -= 2 so that the next cycle fetches this instruction again
   (panics when that underflows).
   */
  function OpFx0A(c: Chip, reg: Nibble): (c': Chip)
    requires Keys.GetPressed(c.keypad).None? ==> Pc(c) >= 2
    ensures Keys.GetPressed(c.keypad).Some? ==>
      RegisterWritten(c, c', reg, Keys.GetPressed(c.keypad).value) &&
      c.keypad.keys[V(c', reg)] && forall k :: 0 <= k < V(c', reg) ==> !c.keypad.keys[k]
    ensures Keys.GetPressed(c.keypad).None? ==> Pc(c') == Pc(c) - 2 && OnlyPcChanged(c, c')
  {
    match Keys.GetPressed(c.keypad)
    case Some(key) => c.(registers := Regs.Set(c.registers, reg, key))
    case None => c.(memory := Mem.GoBack(c.memory, 2))
  }

  /** `op_Fx15`: delay timer := x, the instruction's own x digit (not Vx). */
  function OpFx15(c: Chip, instruction: Nibble): (c': Chip)
    ensures c'.delayTimer == instruction
    ensures c' == c.(delayTimer := c'.delayTimer)
  {
    c.(delayTimer := instruction)
  }

  /** `op_Fx18`: sound timer := Vx. */
  function OpFx18(c: Chip, reg: Nibble): (c': Chip)
    ensures c'.soundTimer == V(c, reg)
    ensures c' == c.(soundTimer := c'.soundTimer)
  {
    c.(soundTimer := Regs.Read(c.registers, reg))
  }

  /** `op_Fx1E`: I += Vx; panics on `u16` overflow in a debug build. */
  function OpFx1E(c: Chip, reg: Nibble): (c': Chip)
    requires c.memory.indexRegister + V(c, reg) < 0x1_0000
    ensures c'.memory.indexRegister == c.memory.indexRegister + V(c, reg)
    ensures c'.memory.buf == c.memory.buf && c'.memory.pc == c.memory.pc && c'.registers == c.registers
    ensures c'.video == c.video && c'.stack == c.stack && SameKeysAndTimers(c, c')
  {
    c.(memory := c.memory.(indexRegister := c.memory.indexRegister + Regs.Read(c.registers, reg)))
  }

  /** `op_Fx29`: point I at the glyph of digit x (the instruction's own x digit, not Vx). */
  function OpFx29(c: Chip, fontNo: Nibble): (c': Chip)
    ensures c'.memory.indexRegister == Mem.FONTSET_START_ADDRESS + 5 * fontNo
    ensures c'.memory.buf == c.memory.buf && c'.memory.pc == c.memory.pc && c'.registers == c.registers
    ensures c'.video == c.video && c'.stack == c.stack && SameKeysAndTimers(c, c')
  {
    c.(memory := Mem.SetIndexRegisterToFontNo(c.memory, fontNo))
  }

  /** `op_Fx33`: the decimal digits of Vx at I, I+1, I+2; panics past the end of memory. */
  function OpFx33(c: Chip, n: Nibble): (c': Chip)
    requires c.memory.indexRegister + 2 < Mem.MEMORY_SIZE
    ensures var i := c.memory.indexRegister;
      100 * (c'.memory.buf[i] as int) + 10 * (c'.memory.buf[i + 1] as int) + c'.memory.buf[i + 2] == V(c, n) &&
      c'.memory.buf[i] < 10 && c'.memory.buf[i + 1] < 10 && c'.memory.buf[i + 2] < 10
    ensures forall j :: 0 <= j < Mem.MEMORY_SIZE && !(c.memory.indexRegister <= j < c.memory.indexRegister + 3) ==>
      c'.memory.buf[j] == c.memory.buf[j]
    ensures c'.registers == c.registers && c'.memory.indexRegister == c.memory.indexRegister
    ensures c'.memory.pc == c.memory.pc && c'.video == c.video && c'.stack == c.stack && SameKeysAndTimers(c, c')
  {
    c.(memory := Mem.StoreBcdRepr(c.memory, Regs.Read(c.registers, n)))
  }

  /** `op_Fx55`: V0..Vx to memory at I..I+x; I is not changed. */
  function OpFx55(c: Chip, val: Nibble): (c': Chip)
    requires c.memory.indexRegister + val + 1 <= Mem.MEMORY_SIZE
    ensures forall k :: 0 <= k <= val ==> c'.memory.buf[c.memory.indexRegister + k] == V(c, k)
    ensures forall j :: 0 <= j < Mem.MEMORY_SIZE && !(c.memory.indexRegister <= j <= c.memory.indexRegister + val) ==>
      c'.memory.buf[j] == c.memory.buf[j]
    ensures c'.memory.indexRegister == c.memory.indexRegister && c'.memory.pc == c.memory.pc
    ensures c'.registers == c.registers && c'.video == c.video && c'.stack == c.stack && SameKeysAndTimers(c, c')
  {
    c.(memory := Mem.CopyFrom(c.memory, Regs.Slice(c.registers, 0, val + 1)))
  }

  /** `op_Fx65`: memory at I..I+x to V0..Vx; I is not changed. */
  function OpFx65(c: Chip, val: Nibble): (c': Chip)
    requires c.memory.indexRegister + val + 1 <= Mem.MEMORY_SIZE
    ensures forall k :: 0 <= k <= val ==> V(c', k) == c.memory.buf[c.memory.indexRegister + k]
    ensures forall k :: val < k < Regs.REGISTERS_NUM ==> c'.registers.regs[k] == c.registers.regs[k]
    ensures OnlyRegistersChanged(c, c')
  {
    var i := c.memory.indexRegister;
    c.(registers := Regs.CopyFrom(c.registers, Mem.Slice(c.memory, i, i + val + 1)))
  }

  // ---------------------------------------------------------------- dispatch

  /** The conditions under which executing `ins` does not panic. */
  predicate Executable(c: Chip, ins: Instruction)
  {
    match ins
    case Ret => c.stack.sp > 0
    case WithAddr(op, nnn) =>
      (match op
       case Call => c.stack.sp < Stk.STACK_SIZE
       case JumpOffset => Pc(c) + V(c, 0) + nnn < 0x1_0000
       case _ => true)
    case WithImm(op, x, kk) =>
      (match op
       case SkipEqImm => V(c, x) == kk ==> Pc(c) + 2 < 0x1_0000
       case SkipNeImm => V(c, x) != kk ==> Pc(c) + 2 < 0x1_0000
       case _ => true)
    case WithRegs(op, x, y) =>
      (match op
       case SkipEqReg => V(c, x) == V(c, y) ==> Pc(c) + 2 < 0x1_0000
       case SkipNeReg => V(c, x) != V(c, y) ==> Pc(c) + 2 < 0x1_0000
       case _ => true)
    case Draw(_, _, n) => c.memory.indexRegister + n <= Mem.MEMORY_SIZE
    case WithReg(op, x) =>
      (match op
       case SkipKey => c.keypad.keys[x] ==> Pc(c) + 2 < 0x1_0000
       case SkipNotKey => !c.keypad.keys[x] ==> Pc(c) + 2 < 0x1_0000
       case WaitKey => Keys.GetPressed(c.keypad).None? ==> Pc(c) >= 2
       case AddIndex => c.memory.indexRegister + V(c, x) < 0x1_0000
       case StoreBcd => c.memory.indexRegister + 2 < Mem.MEMORY_SIZE
       case StoreRegs => c.memory.indexRegister + x + 1 <= Mem.MEMORY_SIZE
       case LoadRegs => c.memory.indexRegister + x + 1 <= Mem.MEMORY_SIZE
       case _ => true)
    case _ => true
  }

  /** The instructions that write a timer: Fx15 and Fx18. */
  predicate WritesTimer(ins: Instruction)
  {
    ins.WithReg? && (ins.uop == SetDelay || ins.uop == SetSound)
  }

  /** `execute_instruction` on a decoded word: the handler of each arm; an unknown word changes nothing. */
  function Execute(c: Chip, ins: Instruction, random: Byte): (c': Chip)
    requires Executable(c, ins)
    ensures c'.keypad == c.keypad
    ensures !WritesTimer(ins) ==> c'.delayTimer == c.delayTimer && c'.soundTimer == c.soundTimer
    ensures Fb.Canonical(c.video) ==> Fb.Canonical(c'.video)
    ensures ins.Unknown? ==> c' == c
  {
    match ins
    case Cls => Op00E0(c)
    case Ret => Op00EE(c)
    case WithAddr(op, nnn) => ExecuteAddr(c, op, nnn)
    case WithImm(op, x, kk) => ExecuteImm(c, op, x, kk, random)
    case WithRegs(op, x, y) => ExecuteRegs(c, op, x, y)
    case Draw(x, y, n) => OpDxyn(c, x, y, n)
    case WithReg(op, x) => ExecuteUnary(c, op, x)
    case Unknown(_) => c
  }

  function ExecuteAddr(c: Chip, op: AddrOp, nnn: Addr): (c': Chip)
    requires Executable(c, WithAddr(op, nnn))
    ensures c'.video == c.video && SameKeysAndTimers(c, c')
  {
    match op
    case Jump => Op1nnn(c, nnn)
    case Call => Op2nnn(c, nnn)
    case SetIndex => OpAnnn(c, nnn)
    case JumpOffset => OpBnnn(c, nnn)
  }

  function ExecuteImm(c: Chip, op: ImmOp, x: Nibble, kk: Byte, random: Byte): (c': Chip)
    requires Executable(c, WithImm(op, x, kk))
    ensures c'.video == c.video && SameKeysAndTimers(c, c')
  {
    match op
    case SkipEqImm => Op3xkk(c, x, kk)
    case SkipNeImm => Op4xkk(c, x, kk)
    case LoadImm => Op6xkk(c, x, kk)
    case AddImm => Op7xkk(c, x, kk)
    case RandomAnd => OpCxkk(c, x, kk, random)
  }

  function ExecuteRegs(c: Chip, op: RegOp, x: Nibble, y: Nibble): (c': Chip)
    requires Executable(c, WithRegs(op, x, y))
    ensures c'.video == c.video && SameKeysAndTimers(c, c')
  {
    match op
    case SkipEqReg => Op5xy0(c, x, y)
    case Move => Op8xy0(c, x, y)
    case Or => Op8xy1(c, x, y)
    case And => Op8xy2(c, x, y)
    case Xor => Op8xy3(c, x, y)
    case AddReg => Op8xy4(c, x, y)
    case SubReg => Op8xy5(c, x, y)
    case ShiftRight => Op8xy6(c, x)
    case SubN => Op8xy7(c, x, y)
    case ShiftLeft => Op8xyE(c, x)
    case SkipNeReg => Op9xy0(c, x, y)
  }

  function ExecuteUnary(c: Chip, op: UnaryOp, x: Nibble): (c': Chip)
    requires Executable(c, WithReg(op, x))
    ensures c'.keypad == c.keypad && c'.video == c.video
    ensures op != SetDelay && op != SetSound ==> c'.delayTimer == c.delayTimer && c'.soundTimer == c.soundTimer
  {
    match op
    case SkipKey => OpEx9E(c, x)
    case SkipNotKey => OpExA1(c, x)
    case LoadDelay => OpFx07(c, x)
    case WaitKey => OpFx0A(c, x)
    case SetDelay => OpFx15(c, x)
    case SetSound => OpFx18(c, x)
    case AddIndex => OpFx1E(c, x)
    case LoadFont => OpFx29(c, x)
    case StoreBcd => OpFx33(c, x)
    case StoreRegs => OpFx55(c, x)
    case LoadRegs => OpFx65(c, x)
  }

  // ------------------------------------------------------- what each arm runs

  /**
   The arms of `execute_instruction` for 00E0 and Dxyn, stated in the terms of
   the instruction table rather than by naming the handler.
   */
  lemma ExecuteScreenArms(c: Chip, ins: Instruction, random: Byte)
    requires Executable(c, ins) && (ins.Cls? || ins.Draw?)
    ensures var c' := Execute(c, ins, random);
      (ins.Cls? ==>
        (forall i :: 0 <= i < Fb.VIDEO_SIZE ==> c'.video.buf[i] == 0) &&
        c'.memory == c.memory && c'.registers == c.registers && c'.stack == c.stack) &&
      (ins.Draw? ==>
        c'.video.buf == Sprite.Toggled(c.video.buf, DrawCells(c, ins.x, ins.y, ins.n)) &&
        V(c', Regs.VF) == (if Sprite.AnyLit(c.video.buf, DrawCells(c, ins.x, ins.y, ins.n)) then 1 else 0) &&
        Regs.SameExcept(c.registers, c'.registers, Regs.VF, Regs.VF) &&
        c'.memory == c.memory && c'.stack == c.stack)
  {
  }

  /**
   The arms 00EE, Fx0A, Fx15 and Fx18: return, wait for a key, and set a timer.
   (The conditional skips are `ChipProperties.ExecuteSkip`.)
   */
  lemma ExecuteControlArms(c: Chip, ins: Instruction, random: Byte)
    requires Executable(c, ins)
    ensures var c' := Execute(c, ins, random);
      (ins == Ret ==>
        Stk.Contents(c'.stack) + [Pc(c')] == Stk.Contents(c.stack) &&
        c'.memory.buf == c.memory.buf && c'.memory.indexRegister == c.memory.indexRegister &&
        c'.registers == c.registers && c'.video == c.video && SameKeysAndTimers(c, c')) &&
      (ins.WithReg? && ins.uop == SetDelay ==> c' == c.(delayTimer := ins.x)) &&
      (ins.WithReg? && ins.uop == SetSound ==> c' == c.(soundTimer := V(c, ins.x))) &&
      (ins.WithReg? && ins.uop == WaitKey && Keys.GetPressed(c.keypad).Some? ==>
        RegisterWritten(c, c', ins.x, Keys.GetPressed(c.keypad).value)) &&
      (ins.WithReg? && ins.uop == WaitKey && Keys.GetPressed(c.keypad).None? ==>
        Pc(c') == Pc(c) - 2 && OnlyPcChanged(c, c'))
  {
  }

  /** The arms 1nnn, 2nnn, Annn and Bnnn. */
  lemma ExecuteAddrArms(c: Chip, op: AddrOp, nnn: Addr, random: Byte)
    requires Executable(c, WithAddr(op, nnn))
    ensures var c' := Execute(c, WithAddr(op, nnn), random);
      (op == Jump ==> Pc(c') == nnn && OnlyPcChanged(c, c')) &&
      (op == Call ==>
        Pc(c') == nnn && Stk.Contents(c'.stack) == Stk.Contents(c.stack) + [Pc(c)] &&
        c'.memory.buf == c.memory.buf && c'.memory.indexRegister == c.memory.indexRegister &&
        c'.registers == c.registers && c'.video == c.video && SameKeysAndTimers(c, c')) &&
      (op == SetIndex ==>
        c' == c.(memory := c.memory.(indexRegister := nnn))) &&
      (op == JumpOffset ==> Pc(c') == Pc(c) + V(c, 0) + nnn && OnlyPcChanged(c, c'))
  {
  }

  /** The arms 6xkk, 7xkk and Cxkk (the skips 3xkk and 4xkk are `ChipProperties.ExecuteSkip`). */
  lemma ExecuteImmArms(c: Chip, op: ImmOp, x: Nibble, kk: Byte, random: Byte)
    requires Executable(c, WithImm(op, x, kk))
    ensures var c' := Execute(c, WithImm(op, x, kk), random);
      (op == LoadImm ==> RegisterWritten(c, c', x, kk)) &&
      (op == AddImm ==> RegisterWritten(c, c', x, (V(c, x) + kk) % 0x100)) &&
      (op == RandomAnd ==>
        Regs.SameExcept(c.registers, c'.registers, x, x) && OnlyRegistersChanged(c, c') &&
        forall k :: 0 <= k < 8 ==> (Bit(V(c', x), k) <==> Bit(random, k) && Bit(kk, k)))
  {
  }

  /** The arms 8xy0 to 8xy3: a move and the three bitwise operators, none of which writes VF. */
  lemma ExecuteLogicArms(c: Chip, op: RegOp, x: Nibble, y: Nibble, random: Byte)
    requires op in {Move, Or, And, Xor}
    ensures var c' := Execute(c, WithRegs(op, x, y), random);
      Regs.SameExcept(c.registers, c'.registers, x, x) && OnlyRegistersChanged(c, c') &&
      (op == Move ==> V(c', x) == V(c, y)) &&
      (op == Or ==> forall k :: 0 <= k < 8 ==> (Bit(V(c', x), k) <==> Bit(V(c, x), k) || Bit(V(c, y), k))) &&
      (op == And ==> forall k :: 0 <= k < 8 ==> (Bit(V(c', x), k) <==> Bit(V(c, x), k) && Bit(V(c, y), k))) &&
      (op == Xor ==> forall k :: 0 <= k < 8 ==> (Bit(V(c', x), k) <==> Bit(V(c, x), k) != Bit(V(c, y), k)))
  {
  }

  /**
   The arms 8xy4 to 8xyE: each writes Vx and the flag VF (when x is VF the
   value wins over the flag). 8xy4 and 8xy5 compute with the register numbers.
   */
  lemma ExecuteArithArms(c: Chip, op: RegOp, x: Nibble, y: Nibble, random: Byte)
    requires op in {AddReg, SubReg, ShiftRight, SubN, ShiftLeft}
    ensures var c' := Execute(c, WithRegs(op, x, y), random);
      Regs.SameExcept(c.registers, c'.registers, x, Regs.VF) && OnlyRegistersChanged(c, c') &&
      (op == AddReg ==> V(c', x) == (x + y) % 0x100 && (x != Regs.VF ==> V(c', Regs.VF) == 0)) &&
      (op == SubReg ==>
        V(c', x) == (x - y) % 0x100 && (x != Regs.VF ==> V(c', Regs.VF) == if x > y then 1 else 0)) &&
      (op == ShiftRight ==> V(c', x) == V(c, x) / 2 && (x != Regs.VF ==> V(c', Regs.VF) == V(c, x) % 2)) &&
      (op == SubN ==>
        V(c', x) == (V(c, y) - V(c, x)) % 0x100 &&
        (x != Regs.VF ==> V(c', Regs.VF) == if V(c, y) > V(c, x) then 1 else 0)) &&
      (op == ShiftLeft ==> V(c', x) == (2 * V(c, x)) % 0x100 && (x != Regs.VF ==> V(c', Regs.VF) == V(c, x) / 0x80))
  {
  }

  /** The arms Fx07, Fx1E and Fx29: a register or I is set, nothing else changes. */
  lemma ExecuteIndexArms(c: Chip, op: UnaryOp, x: Nibble, random: Byte)
    requires Executable(c, WithReg(op, x)) && op in {LoadDelay, AddIndex, LoadFont}
    ensures var c' := Execute(c, WithReg(op, x), random);
      (op == LoadDelay ==> RegisterWritten(c, c', x, c.delayTimer)) &&
      (op == AddIndex ==>
        c' == c.(memory := c.memory.(indexRegister := c.memory.indexRegister + V(c, x)))) &&
      (op == LoadFont ==>
        c' == c.(memory := c.memory.(indexRegister := Mem.FONTSET_START_ADDRESS + 5 * x)))
  {
  }

  /** The arms Fx33, Fx55 and Fx65: decimal digits to memory, and registers to and from memory. */
  lemma ExecuteMemoryArms(c: Chip, op: UnaryOp, x: Nibble, random: Byte)
    requires Executable(c, WithReg(op, x)) && op in {StoreBcd, StoreRegs, LoadRegs}
    ensures var c' := Execute(c, WithReg(op, x), random); var i := c.memory.indexRegister;
      (op == StoreBcd ==>
        100 * (c'.memory.buf[i] as int) + 10 * (c'.memory.buf[i + 1] as int) + c'.memory.buf[i + 2] == V(c, x) &&
        c'.memory.buf[i] < 10 && c'.memory.buf[i + 1] < 10 && c'.memory.buf[i + 2] < 10 &&
        (forall j :: 0 <= j < Mem.MEMORY_SIZE && !(i <= j < i + 3) ==> c'.memory.buf[j] == c.memory.buf[j]) &&
        c' == c.(memory := c.memory.(buf := c'.memory.buf))) &&
      (op == StoreRegs ==>
        (forall k :: 0 <= k <= x ==> c'.memory.buf[i + k] == V(c, k)) &&
        (forall j :: 0 <= j < Mem.MEMORY_SIZE && !(i <= j <= i + x) ==> c'.memory.buf[j] == c.memory.buf[j]) &&
        c' == c.(memory := c.memory.(buf := c'.memory.buf))) &&
      (op == LoadRegs ==>
        (forall k :: 0 <= k <= x ==> V(c', k) == c.memory.buf[i + k]) &&
        (forall k :: x < k < Regs.REGISTERS_NUM ==> c'.registers.regs[k] == c.registers.regs[k]) &&
        OnlyRegistersChanged(c, c'))
  {
  }

  // ---------------------------------------------------------------- cycle

  /** A timer after one cycle's countdown: one lower, but never below zero. */
  function CountDown(t: Byte): (r: Byte)
    ensures Ticked(t, r)
  {
    if t > 0 then t - 1 else 0
  }

  /** `after` is `before` counted down by one tick: one less, or zero when it was already zero. */
  predicate Ticked(before: Byte, after: Byte)
  {
    after + 1 == before || before == after == 0
  }

  /** The instruction word at pc, and the state after `fetch` advanced pc past it. */
  function Fetched(c: Chip): (r: (U16, Chip))
    requires Pc(c) + 1 < Mem.MEMORY_SIZE
    ensures r.0 / 0x100 == c.memory.buf[Pc(c)] && r.0 % 0x100 == c.memory.buf[Pc(c) + 1]
    ensures Pc(r.1) == Pc(c) + 2 && r.1 == c.(memory := r.1.memory)
    ensures r.1.memory.buf == c.memory.buf && r.1.memory.indexRegister == c.memory.indexRegister
  {
    var (word, memory) := Mem.Fetch(c.memory);
    (word, c.(memory := memory))
  }

  /** The fetched word is in memory and the instruction it decodes to can run without a panic. */
  predicate CanCycle(c: Chip)
  {
    Pc(c) + 1 < Mem.MEMORY_SIZE &&
    Executable(Fetched(c).1, Decode(Fetched(c).0))
  }

  /**
   `cycle`: fetch the word at pc (pc += 2), execute it, then count both
   timers down by one without going below zero. An unknown word changes
   nothing but the program counter and the timers.
   */
  function Cycle(c: Chip, random: Byte): (c': Chip)
    requires CanCycle(c)
    ensures c'.keypad == c.keypad
    ensures Fb.Canonical(c.video) ==> Fb.Canonical(c'.video)
    ensures !WritesTimer(Decode(Fetched(c).0)) ==>
      Ticked(c.delayTimer, c'.delayTimer) && Ticked(c.soundTimer, c'.soundTimer)
    ensures var e := Execute(Fetched(c).1, Decode(Fetched(c).0), random);
      c' == e.(delayTimer := c'.delayTimer, soundTimer := c'.soundTimer) &&
      Ticked(e.delayTimer, c'.delayTimer) && Ticked(e.soundTimer, c'.soundTimer)
    ensures Decode(Fetched(c).0).Unknown? ==>
      c' == c.(memory := c.memory.(pc := Pc(c) + 2), delayTimer := c'.delayTimer, soundTimer := c'.soundTimer)
  {
    var (word, fetched) := Fetched(c);
    var executed := Execute(fetched, Decode(word), random);
    executed.(delayTimer := CountDown(executed.delayTimer), soundTimer := CountDown(executed.soundTimer))
  }
}
