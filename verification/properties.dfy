/**
 Properties of whole interpreter steps: what one `cycle` does for a given
 instruction in memory at pc, and how pairs of instructions combine.

 `At(c, ins)` says that the two bytes at pc spell the instruction `ins`
 (big-endian), so the lemmas read as "with this instruction next, a cycle
 does ...", independently of how the word is decoded.
 */
module ChipProperties {
  import opened Bits
  import opened Opcodes
  import opened Interpreter
  import Mem = AddressSpace
  import Regs = RegisterFile
  import Stk = CallStack
  import Fb = Framebuffer
  import Keys = KeyState
  import Sprite

  /** The two bytes at pc are the big-endian encoding of `ins`. */
  predicate At(c: Chip, ins: Instruction)
  {
    Pc(c) + 1 < Mem.MEMORY_SIZE &&
    c.memory.buf[Pc(c)] == Encode(ins) / 0x100 && c.memory.buf[Pc(c) + 1] == Encode(ins) % 0x100
  }

  /** The word fetched at pc is the encoding of `ins`, and it decodes back to `ins`. */
  lemma FetchAt(c: Chip, ins: Instruction)
    requires At(c, ins) && Decodable(ins)
    ensures Fetched(c).0 == Encode(ins)
    ensures Decode(Fetched(c).0) == ins
  {
    var w := Fetched(c).0;
    assert w == w / 0x100 * 0x100 + w % 0x100;
    assert Encode(ins) == Encode(ins) / 0x100 * 0x100 + Encode(ins) % 0x100;
    DecodeEncode(ins);
  }

  // ------------------------------------------------------------ unknown words

  /** An unknown word in the program is skipped: pc moves past it, the timers tick, nothing else changes. */
  lemma CycleUnknown(c: Chip, w: U16, random: Byte)
    requires At(c, Unknown(w)) && !Known(w)
    ensures CanCycle(c)
    ensures var c' := Cycle(c, random);
      Pc(c') == Pc(c) + 2 && c'.memory.buf == c.memory.buf && c'.memory.indexRegister == c.memory.indexRegister &&
      c'.registers == c.registers && c'.stack == c.stack && c'.video == c.video &&
      Ticked(c.delayTimer, c'.delayTimer) && Ticked(c.soundTimer, c'.soundTimer)
  {
    FetchAt(c, Unknown(w));
  }

  // ------------------------------------------------------------ conditional skips

  /** The six conditional skips: 3xkk, 4xkk, 5xy0, 9xy0, Ex9E, ExA1. */
  predicate IsSkip(ins: Instruction)
  {
    (ins.WithImm? && (ins.iop == SkipEqImm || ins.iop == SkipNeImm)) ||
    (ins.WithRegs? && (ins.rop == SkipEqReg || ins.rop == SkipNeReg)) ||
    (ins.WithReg? && (ins.uop == SkipKey || ins.uop == SkipNotKey))
  }

  /** When each skip skips, in the terms of the instruction table. */
  predicate SkipTaken(c: Chip, ins: Instruction)
    requires IsSkip(ins)
  {
    match ins
    case WithImm(op, x, kk) => if op == SkipEqImm then c.registers.regs[x] == kk else c.registers.regs[x] != kk
    case WithRegs(op, x, y) =>
      if op == SkipEqReg then c.registers.regs[x] == c.registers.regs[y] else c.registers.regs[x] != c.registers.regs[y]
    case WithReg(op, x) => if op == SkipKey then c.keypad.keys[x] else !c.keypad.keys[x]
  }

  /** Executing a skip moves pc by 2 exactly when its condition holds, and changes nothing else. */
  lemma ExecuteSkip(c: Chip, ins: Instruction, random: Byte)
    requires IsSkip(ins) && Executable(c, ins)
    ensures var c' := Execute(c, ins, random);
      Pc(c') == Pc(c) + (if SkipTaken(c, ins) then 2 else 0) && OnlyPcChanged(c, c')
  {
    match ins
    case WithImm(op, x, kk) =>
    case WithRegs(op, x, y) =>
    case WithReg(op, x) =>
  }

  /**
   A cycle on a skip instruction moves pc by 4 when the condition holds and by
   2 otherwise, and changes nothing else but the timers.
   */
  lemma CycleSkip(c: Chip, ins: Instruction, random: Byte)
    requires IsSkip(ins) && At(c, ins) && Pc(c) + 4 < 0x1_0000
    ensures CanCycle(c)
    ensures var c' := Cycle(c, random);
      Pc(c') == Pc(c) + (if SkipTaken(c, ins) then 4 else 2) &&
      c'.memory.buf == c.memory.buf && c'.memory.indexRegister == c.memory.indexRegister &&
      c'.registers == c.registers && c'.stack == c.stack && c'.video == c.video &&
      Ticked(c.delayTimer, c'.delayTimer) && Ticked(c.soundTimer, c'.soundTimer)
  {
    FetchAt(c, ins);
    var fetched := Fetched(c).1;
    assert SkipTaken(fetched, ins) == SkipTaken(c, ins);
    ExecuteSkip(fetched, ins, random);
  }

  // ------------------------------------------------------------ call and return

  /** A cycle on 2nnn pushes the address just past it and continues at nnn. */
  lemma CycleCall(c: Chip, nnn: Addr, random: Byte)
    requires At(c, WithAddr(Call, nnn)) && c.stack.sp < Stk.STACK_SIZE
    ensures CanCycle(c)
    ensures var c' := Cycle(c, random);
      Pc(c') == nnn && Stk.Contents(c'.stack) == Stk.Contents(c.stack) + [Pc(c) + 2] &&
      c'.registers == c.registers && c'.memory.buf == c.memory.buf && c'.video == c.video &&
      c'.memory.indexRegister == c.memory.indexRegister && c'.keypad == c.keypad
  {
    FetchAt(c, WithAddr(Call, nnn));
  }

  /** A cycle on 00EE continues at the most recently pushed address and drops it from the stack. */
  lemma CycleReturn(c: Chip, random: Byte)
    requires At(c, Ret) && c.stack.sp > 0
    ensures CanCycle(c)
    ensures var c' := Cycle(c, random);
      Stk.Contents(c'.stack) + [Pc(c')] == Stk.Contents(c.stack) &&
      c'.registers == c.registers && c'.memory.buf == c.memory.buf && c'.video == c.video &&
      c'.memory.indexRegister == c.memory.indexRegister && c'.keypad == c.keypad
  {
    FetchAt(c, Ret);
  }

  /**
   A call to a subroutine whose first instruction is a return: after the two
   cycles pc is just past the call and the stack holds what it held before.
   */
  lemma CycleCallReturn(c: Chip, nnn: Addr, r1: Byte, r2: Byte)
    requires At(c, WithAddr(Call, nnn)) && c.stack.sp < Stk.STACK_SIZE
    requires At(c.(memory := c.memory.(pc := nnn)), Ret)
    ensures CanCycle(c)
    ensures CanCycle(Cycle(c, r1))
    ensures var c' := Cycle(Cycle(c, r1), r2);
      Pc(c') == Pc(c) + 2 && Stk.Contents(c'.stack) == Stk.Contents(c.stack) &&
      c'.registers == c.registers && c'.memory.buf == c.memory.buf && c'.video == c.video
  {
    CycleCall(c, nnn, r1);
    var c1 := Cycle(c, r1);
    assert c1.stack.sp > 0 by {
      assert |Stk.Contents(c1.stack)| == |Stk.Contents(c.stack)| + 1;
    }
    CycleReturn(c1, r2);
    var c2 := Cycle(c1, r2);
    assert Stk.Contents(c2.stack) + [Pc(c2)] == Stk.Contents(c.stack) + [Pc(c) + 2];
    assert Pc(c2) == (Stk.Contents(c.stack) + [Pc(c) + 2])[|Stk.Contents(c.stack)|];
    assert Stk.Contents(c2.stack) == (Stk.Contents(c.stack) + [Pc(c) + 2])[..|Stk.Contents(c.stack)|];
  }

  // ------------------------------------------------------------ timers

  /** Fx15 sets the delay timer to x, and the cycle's countdown has already taken one off. */
  lemma CycleSetDelay(c: Chip, x: Nibble, random: Byte)
    requires At(c, WithReg(SetDelay, x))
    ensures CanCycle(c)
    ensures Ticked(x, Cycle(c, random).delayTimer)
    ensures Ticked(c.soundTimer, Cycle(c, random).soundTimer)
    ensures var c' := Cycle(c, random);
      c' == c.(memory := c.memory.(pc := Pc(c) + 2), delayTimer := c'.delayTimer, soundTimer := c'.soundTimer)
  {
    FetchAt(c, WithReg(SetDelay, x));
  }

  /** Fx18 sets the sound timer to Vx, likewise one lower when the cycle returns. */
  lemma CycleSetSound(c: Chip, x: Nibble, random: Byte)
    requires At(c, WithReg(SetSound, x))
    ensures CanCycle(c)
    ensures Ticked(c.registers.regs[x], Cycle(c, random).soundTimer)
    ensures Ticked(c.delayTimer, Cycle(c, random).delayTimer)
    ensures var c' := Cycle(c, random);
      c' == c.(memory := c.memory.(pc := Pc(c) + 2), delayTimer := c'.delayTimer, soundTimer := c'.soundTimer)
  {
    FetchAt(c, WithReg(SetSound, x));
  }

  // ------------------------------------------------------------ waiting for a key

  /**
   Fx0A with no key down leaves pc on the same instruction, so the next cycle
   fetches it again; apart from the timers' countdown nothing else changes.
   */
  lemma CycleWaitNoKey(c: Chip, x: Nibble, random: Byte)
    requires At(c, WithReg(WaitKey, x))
    requires forall k :: 0 <= k < Keys.KEYS_NUM ==> !c.keypad.keys[k]
    ensures CanCycle(c)
    ensures var c' := Cycle(c, random);
      Pc(c') == Pc(c) && At(c', WithReg(WaitKey, x)) && c'.registers == c.registers &&
      c' == c.(delayTimer := c'.delayTimer, soundTimer := c'.soundTimer) &&
      Ticked(c.delayTimer, c'.delayTimer) && Ticked(c.soundTimer, c'.soundTimer)
  {
    FetchAt(c, WithReg(WaitKey, x));
  }

  /** Fx0A with some key down stores the lowest pressed key in Vx and moves on. */
  lemma CycleWaitKey(c: Chip, x: Nibble, k: Nibble, random: Byte)
    requires At(c, WithReg(WaitKey, x))
    requires c.keypad.keys[k] && forall j :: 0 <= j < k ==> !c.keypad.keys[j]
    ensures CanCycle(c)
    ensures var c' := Cycle(c, random);
      Pc(c') == Pc(c) + 2 && c'.registers.regs[x] == k && Regs.SameExcept(c.registers, c'.registers, x, x) &&
      c'.memory == c.memory.(pc := Pc(c) + 2) && c'.stack == c.stack && c'.video == c.video &&
      c'.keypad == c.keypad && Ticked(c.delayTimer, c'.delayTimer) && Ticked(c.soundTimer, c'.soundTimer)
  {
    FetchAt(c, WithReg(WaitKey, x));
    assert Keys.IsPressed(c.keypad, k);
  }

  // ------------------------------------------------------------ pairs of handlers

  /** Fx55 then Fx65 with the same x: I is unchanged in between, so the registers read back are the ones stored. */
  lemma StoreThenLoadRegs(c: Chip, x: Nibble)
    requires c.memory.indexRegister + x + 1 <= Mem.MEMORY_SIZE
    ensures OpFx65(OpFx55(c, x), x).registers == c.registers
  {
    var c' := OpFx65(OpFx55(c, x), x);
    assert c'.registers.regs == c.registers.regs;
  }

  /** Dxyn twice with the same operands restores the screen, provided neither coordinate register is VF. */
  lemma DrawTwiceRestoresScreen(c: Chip, x: Nibble, y: Nibble, n: Nibble)
    requires c.memory.indexRegister + n <= Mem.MEMORY_SIZE
    requires x != Regs.VF && y != Regs.VF
    ensures OpDxyn(OpDxyn(c, x, y, n), x, y, n).video == c.video
  {
    var c1 := OpDxyn(c, x, y, n);
    var cells := DrawCells(c, x, y, n);
    assert DrawCells(c1, x, y, n) == cells;
    Sprite.DrawTwiceRestores(c.video.buf, SpriteAt(c, n), V(c, x), V(c, y));
  }

  /** On an off/on screen, Dxyn sets VF exactly when it switched some lit cell off. */
  lemma DrawCollision(c: Chip, x: Nibble, y: Nibble, n: Nibble)
    requires c.memory.indexRegister + n <= Mem.MEMORY_SIZE && Fb.Canonical(c.video)
    ensures var c' := OpDxyn(c, x, y, n);
      c'.registers.regs[Regs.VF] == 1 <==>
      exists p :: 0 <= p < Fb.VIDEO_SIZE && c.video.buf[p] == Fb.ON && c'.video.buf[p] == 0
  {
    Sprite.CollisionMeansErased(c.video, SpriteAt(c, n), V(c, x), V(c, y));
  }

  /** Fx29 with the font in place points I at the five bytes of glyph x, which Dxy5 then draws. */
  lemma LoadFontSelectsGlyph(c: Chip, x: Nibble)
    requires Mem.FontIntact(c.memory)
    ensures var c' := OpFx29(c, x);
      c'.memory.indexRegister + 5 <= Mem.MEMORY_SIZE && SpriteAt(c', 5) == Mem.Glyph(x)
  {
    Mem.FontGlyphAtIndex(c.memory, x);
  }
}
