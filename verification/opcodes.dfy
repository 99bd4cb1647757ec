/**
 Instruction decoding: the field extractors `decode_fst`, `decode_snd`,
 `decode_thrd`, `decode_bytes`, `decode_all` and the guard cascade of
 `execute_instruction` in `src/chip.rs`.

 A mask test `opcode & 0xF000 == 0x1000` is written as a test on the leading
 hexadecimal digit, `opcode & 0xF00F == 0x8004` as a test on the leading and
 trailing digits, `opcode & 0xF0FF == 0xF01E` as a test on the leading digit
 and the low byte. A word no guard matches is `Unknown`; on it the source only
 prints a diagnostic.

 Instructions are grouped by the operands their handler receives: a twelve-bit
 address, a register and a byte, two registers, one register (or key, or
 digit), and the three operands of `Dxyn`.
 */
module Opcodes {
  import opened Bits

  /** Handlers taking `decode_all`: 1nnn, 2nnn, Annn, Bnnn. */
  datatype AddrOp = Jump | Call | SetIndex | JumpOffset

  /** Handlers taking `decode_fst` and `decode_bytes`: 3xkk, 4xkk, 6xkk, 7xkk, Cxkk. */
  datatype ImmOp = SkipEqImm | SkipNeImm | LoadImm | AddImm | RandomAnd

  /** Handlers taking `decode_fst` and `decode_snd`: 5xy0, 8xy0 .. 8xyE, 9xy0. 8xy6 and 8xyE ignore y. */
  datatype RegOp = SkipEqReg | Move | Or | And | Xor | AddReg | SubReg | ShiftRight | SubN | ShiftLeft | SkipNeReg

  /** Handlers taking `decode_fst` only: Ex9E, ExA1 and the Fx.. instructions. */
  datatype UnaryOp = SkipKey | SkipNotKey | LoadDelay | WaitKey | SetDelay | SetSound
                   | AddIndex | LoadFont | StoreBcd | StoreRegs | LoadRegs

  /** One decoded instruction word, with the operands the source passes to its handler. */
  datatype Instruction =
    | Cls                                         // 00E0
    | Ret                                         // 00EE
    | WithAddr(aop: AddrOp, nnn: Addr)
    | WithImm(iop: ImmOp, x: Nibble, kk: Byte)
    | WithRegs(rop: RegOp, x: Nibble, y: Nibble)
    | Draw(x: Nibble, y: Nibble, n: Nibble)       // Dxyn
    | WithReg(uop: UnaryOp, x: Nibble)
    | Unknown(word: U16)

  /** The family digit of each address instruction. */
  function AddrFamily(op: AddrOp): Nibble
  {
    match op
    case Jump => 0x1
    case Call => 0x2
    case SetIndex => 0xA
    case JumpOffset => 0xB
  }

  /** The family digit of each register-and-byte instruction. */
  function ImmFamily(op: ImmOp): Nibble
  {
    match op
    case SkipEqImm => 0x3
    case SkipNeImm => 0x4
    case LoadImm => 0x6
    case AddImm => 0x7
    case RandomAnd => 0xC
  }

  /** The family digit and the low digit of each two-register instruction. */
  function RegCode(op: RegOp): (Nibble, Nibble)
  {
    match op
    case SkipEqReg => (0x5, 0x0)
    case Move => (0x8, 0x0)
    case Or => (0x8, 0x1)
    case And => (0x8, 0x2)
    case Xor => (0x8, 0x3)
    case AddReg => (0x8, 0x4)
    case SubReg => (0x8, 0x5)
    case ShiftRight => (0x8, 0x6)
    case SubN => (0x8, 0x7)
    case ShiftLeft => (0x8, 0xE)
    case SkipNeReg => (0x9, 0x0)
  }

  /** The family digit and the low byte of each one-register instruction. */
  function UnaryCode(op: UnaryOp): (Nibble, Byte)
  {
    match op
    case SkipKey => (0xE, 0x9E)
    case SkipNotKey => (0xE, 0xA1)
    case LoadDelay => (0xF, 0x07)
    case WaitKey => (0xF, 0x0A)
    case SetDelay => (0xF, 0x15)
    case SetSound => (0xF, 0x18)
    case AddIndex => (0xF, 0x1E)
    case LoadFont => (0xF, 0x29)
    case StoreBcd => (0xF, 0x33)
    case StoreRegs => (0xF, 0x55)
    case LoadRegs => (0xF, 0x65)
  }

  /** The leading hexadecimal digit, the instruction family (`opcode & 0xF000`, shifted down). */
  function Family(w: U16): Nibble
  {
    w / 0x1000
  }

  /** `decode_fst`: `(n & 0x0F00) >> 8`, the x field. */
  function DecodeFst(w: U16): (x: Nibble)
    ensures x == DecodeAll(w) / 0x100
  {
    var f, nnn := w / 0x1000, w % 0x1000;
    Div256(w, f * 0x10 + nnn / 0x100, nnn % 0x100);
    Div16(f * 0x10 + nnn / 0x100, f, nnn / 0x100);
    (w / 0x100) % 0x10
  }

  /** `decode_snd`: `(n & 0x00F0) >> 4`, the y field. */
  function DecodeSnd(w: U16): (y: Nibble)
    ensures y == DecodeBytes(w) / 0x10
  {
    var q, kk := w / 0x100, w % 0x100;
    Div16(w, q * 0x10 + kk / 0x10, kk % 0x10);
    Div16(q * 0x10 + kk / 0x10, q, kk / 0x10);
    (w / 0x10) % 0x10
  }

  /** `decode_thrd`: `n & 0x000F`, the n field. */
  function DecodeThrd(w: U16): (n: Nibble)
    ensures n == DecodeBytes(w) % 0x10
  {
    var q, kk := w / 0x100, w % 0x100;
    Div16(w, q * 0x10 + kk / 0x10, kk % 0x10);
    w % 0x10
  }

  /** `decode_bytes`: `n & 0x00FF`, the kk field. */
  function DecodeBytes(w: U16): (kk: Byte)
    ensures kk == DecodeAll(w) % 0x100
  {
    var f, nnn := w / 0x1000, w % 0x1000;
    Div256(w, f * 0x10 + nnn / 0x100, nnn % 0x100);
    w % 0x100
  }

  /** `decode_all`: `n & 0x0FFF`, the nnn field. */
  function DecodeAll(w: U16): (nnn: Addr)
    ensures w == Family(w) * 0x1000 + nnn
  {
    w % 0x1000
  }

  lemma Div16(w: int, q: int, r: int)
    requires 0 <= r < 0x10 && w == q * 0x10 + r
    ensures w / 0x10 == q && w % 0x10 == r
  {
  }

  lemma Div256(w: int, q: int, r: int)
    requires 0 <= r < 0x100 && w == q * 0x100 + r
    ensures w / 0x100 == q && w % 0x100 == r
  {
  }

  lemma Div4096(w: int, q: int, r: int)
    requires 0 <= r < 0x1000 && w == q * 0x1000 + r
    ensures w / 0x1000 == q && w % 0x1000 == r
  {
  }

  /** The word with hexadecimal digits `f`, `x`, `y`, `n`. */
  function Word(f: Nibble, x: Nibble, y: Nibble, n: Nibble): U16
  {
    f * 0x1000 + x * 0x100 + y * 0x10 + n
  }

  /** The fields of a word assembled from four digits are those digits. */
  lemma {:induction false} WordFields(f: Nibble, x: Nibble, y: Nibble, n: Nibble)
    ensures var w := Word(f, x, y, n);
      Family(w) == f && DecodeFst(w) == x && DecodeSnd(w) == y && DecodeThrd(w) == n &&
      DecodeBytes(w) == y * 0x10 + n && DecodeAll(w) == x * 0x100 + y * 0x10 + n
  {
    var w := Word(f, x, y, n);
    Div4096(w, f, x * 0x100 + y * 0x10 + n);
    Div256(w, f * 0x10 + x, y * 0x10 + n);
    Div16(f * 0x10 + x, f, x);
    Div16(w, f * 0x100 + x * 0x10 + y, n);
    Div16(f * 0x100 + x * 0x10 + y, f * 0x10 + x, y);
  }

  /**
   The fields partition the word: family, x, y and n are its four hexadecimal
   digits, most significant first; kk is the y and n digits, nnn the x, y and n
   digits.
   */
  lemma {:induction false} FieldsCompose(w: U16)
    ensures w == Word(Family(w), DecodeFst(w), DecodeSnd(w), DecodeThrd(w))
    ensures DecodeBytes(w) == DecodeSnd(w) * 0x10 + DecodeThrd(w)
    ensures DecodeAll(w) == DecodeFst(w) * 0x100 + DecodeBytes(w)
  {
    var f, r := w / 0x1000, w % 0x1000;
    var x, r2 := r / 0x100, r % 0x100;
    var y, n := r2 / 0x10, r2 % 0x10;
    WordFields(f, x, y, n);
  }

  /**
   The instruction `execute_instruction` dispatches word `w` to. The two
   literal words are tested first; every later guard of the source tests the
   family digit, so guards of different families never both match, and testing
   the family first, then the guards of that family in source order, picks the
   same arm as the source's cascade.
   */
  function Decode(w: U16): (ins: Instruction)
    ensures ins.Unknown? ==> ins.word == w
    ensures ins == Cls <==> w == 0x00E0
    ensures ins == Ret <==> w == 0x00EE
  {
    if w == 0x00E0 then Cls
    else if w == 0x00EE then Ret
    else DecodeFamily(w, Family(w), DecodeFst(w), DecodeSnd(w), DecodeThrd(w), DecodeBytes(w), DecodeAll(w))
  }

  /** The guards of every family, given the fields x, y, n, kk and nnn of `w`. */
  function DecodeFamily(w: U16, f: Nibble, x: Nibble, y: Nibble, n: Nibble, kk: Byte, nnn: Addr): Instruction
  {
    match f
    case 0x1 => WithAddr(Jump, nnn)
    case 0x2 => WithAddr(Call, nnn)
    case 0x3 => WithImm(SkipEqImm, x, kk)
    case 0x4 => WithImm(SkipNeImm, x, kk)
    case 0x5 => if n == 0x0 then WithRegs(SkipEqReg, x, y) else Unknown(w)
    case 0x6 => WithImm(LoadImm, x, kk)
    case 0x7 => WithImm(AddImm, x, kk)
    case 0x8 => DecodeArith(w, x, y, n)
    case 0x9 => if n == 0x0 then WithRegs(SkipNeReg, x, y) else Unknown(w)
    case 0xA => WithAddr(SetIndex, nnn)
    case 0xB => WithAddr(JumpOffset, nnn)
    case 0xC => WithImm(RandomAnd, x, kk)
    case 0xD => Draw(x, y, n)
    case 0xE => DecodeKey(w, x, kk)
    case 0xF => DecodeMisc(w, x, kk)
    case _ => Unknown(w)
  }

  /** The `opcode & 0xF00F == 0x800n` guards, selected by the low digit. */
  function DecodeArith(w: U16, x: Nibble, y: Nibble, n: Nibble): Instruction
  {
    match n
    case 0x0 => WithRegs(Move, x, y)
    case 0x1 => WithRegs(Or, x, y)
    case 0x2 => WithRegs(And, x, y)
    case 0x3 => WithRegs(Xor, x, y)
    case 0x4 => WithRegs(AddReg, x, y)
    case 0x5 => WithRegs(SubReg, x, y)
    case 0x6 => WithRegs(ShiftRight, x, y)
    case 0x7 => WithRegs(SubN, x, y)
    case 0xE => WithRegs(ShiftLeft, x, y)
    case _ => Unknown(w)
  }

  /** The `opcode & 0xF0FF == 0xE0kk` guards, selected by the low byte. */
  function DecodeKey(w: U16, x: Nibble, kk: Byte): Instruction
  {
    match kk
    case 0x9E => WithReg(SkipKey, x)
    case 0xA1 => WithReg(SkipNotKey, x)
    case _ => Unknown(w)
  }

  /** The `opcode & 0xF0FF == 0xF0kk` guards, selected by the low byte. */
  function DecodeMisc(w: U16, x: Nibble, kk: Byte): Instruction
  {
    match kk
    case 0x07 => WithReg(LoadDelay, x)
    case 0x0A => WithReg(WaitKey, x)
    case 0x15 => WithReg(SetDelay, x)
    case 0x18 => WithReg(SetSound, x)
    case 0x1E => WithReg(AddIndex, x)
    case 0x29 => WithReg(LoadFont, x)
    case 0x33 => WithReg(StoreBcd, x)
    case 0x55 => WithReg(StoreRegs, x)
    case 0x65 => WithReg(LoadRegs, x)
    case _ => Unknown(w)
  }

  /** The instruction word an instruction is written as; an unknown word stands for itself. */
  function Encode(ins: Instruction): U16
  {
    match ins
    case Cls => 0x00E0
    case Ret => 0x00EE
    case WithAddr(op, nnn) => AddrFamily(op) * 0x1000 + nnn
    case WithImm(op, x, kk) => ImmFamily(op) * 0x1000 + x * 0x100 + kk
    case WithRegs(op, x, y) => Word(RegCode(op).0, x, y, RegCode(op).1)
    case Draw(x, y, n) => Word(0xD, x, y, n)
    case WithReg(op, x) => UnaryCode(op).0 * 0x1000 + x * 0x100 + UnaryCode(op).1
    case Unknown(w) => w
  }

  /**
   The opcode table as a set of word patterns, independent of the decoder: the
   two literal words, the families with a twelve-bit or byte operand, the
   5/8/9 families selected by their low digit, and the E/F families selected by
   their low byte.
   */
  predicate Known(w: U16)
  {
    var f := w / 0x1000;
    var n := w % 0x10;
    var kk := w % 0x100;
    w == 0x00E0 || w == 0x00EE
    || f in {0x1, 0x2, 0x3, 0x4, 0x6, 0x7, 0xA, 0xB, 0xC, 0xD}
    || (f in {0x5, 0x9} && n == 0x0)
    || (f == 0x8 && n in {0x0, 0x1, 0x2, 0x3, 0x4, 0x5, 0x6, 0x7, 0xE})
    || (f == 0xE && kk in {0x9E, 0xA1})
    || (f == 0xF && kk in {0x07, 0x0A, 0x15, 0x18, 0x1E, 0x29, 0x33, 0x55, 0x65})
  }

  /** A word decodes to `Unknown` exactly when it matches no pattern of the opcode table, and then to itself. */
  lemma DecodeUnknown(w: U16)
    ensures Decode(w).Unknown? <==> !Known(w)
    ensures Decode(w).Unknown? ==> Decode(w).word == w
  {
  }

  /** Re-encoding a decoded word gives the word back: decoding loses no information. */
  lemma EncodeDecode(w: U16)
    ensures Encode(Decode(w)) == w
  {
    var f := Family(w);
    if f == 0x8 {
      EncodeDecodeArith(w);
    } else if f == 0xF {
      EncodeDecodeMisc(w);
    } else if f == 0xE {
      EncodeDecodeKey(w);
    } else if f in {0x1, 0x2, 0xA, 0xB} {
      EncodeDecodeAddr(w);
    } else if f in {0x3, 0x4, 0x6, 0x7, 0xC} {
      EncodeDecodeImm(w);
    } else {
      EncodeDecodeOther(w);
    }
  }

  lemma EncodeDecodeAddr(w: U16)
    requires Family(w) in {0x1, 0x2, 0xA, 0xB}
    ensures Encode(Decode(w)) == w
  {
    FieldsCompose(w);
  }

  lemma EncodeDecodeImm(w: U16)
    requires Family(w) in {0x3, 0x4, 0x6, 0x7, 0xC}
    ensures Encode(Decode(w)) == w
  {
    FieldsCompose(w);
  }

  lemma EncodeDecodeOther(w: U16)
    requires Family(w) in {0x0, 0x5, 0x9, 0xD}
    ensures Encode(Decode(w)) == w
  {
    FieldsCompose(w);
  }

  lemma EncodeDecodeKey(w: U16)
    requires Family(w) == 0xE
    ensures Encode(Decode(w)) == w
  {
    FieldsCompose(w);
  }

  lemma EncodeDecodeArith(w: U16)
    requires Family(w) == 0x8
    ensures Encode(Decode(w)) == w
  {
    FieldsCompose(w);
  }

  lemma EncodeDecodeMisc(w: U16)
    requires Family(w) == 0xF
    ensures Encode(Decode(w)) == w
  {
    FieldsCompose(w);
  }

  /** An instruction as the decoder can produce it: an `Unknown` word is not in the opcode table. */
  predicate Decodable(ins: Instruction)
  {
    ins.Unknown? ==> !Known(ins.word)
  }

  /** Decoding an encoded instruction gives the instruction back (an unknown word must really be unknown). */
  lemma DecodeEncode(ins: Instruction)
    requires Decodable(ins)
    ensures Decode(Encode(ins)) == ins
  {
    match ins {
      case Cls =>
      case Ret =>
      case WithAddr(op, nnn) => DecodeEncodeAddr(op, nnn);
      case WithImm(op, x, kk) => DecodeEncodeImm(op, x, kk);
      case WithRegs(op, x, y) => DecodeEncodeRegs(op, x, y);
      case Draw(x, y, n) => WordFields(0xD, x, y, n);
      case WithReg(op, x) => DecodeEncodeUnary(op, x);
      case Unknown(w) => DecodeUnknown(w);
    }
  }

  lemma DecodeEncodeAddr(op: AddrOp, nnn: Addr)
    ensures Decode(Encode(WithAddr(op, nnn))) == WithAddr(op, nnn)
  {
    Div4096(Encode(WithAddr(op, nnn)), AddrFamily(op), nnn);
  }

  lemma DecodeEncodeImm(op: ImmOp, x: Nibble, kk: Byte)
    ensures Decode(Encode(WithImm(op, x, kk))) == WithImm(op, x, kk)
  {
    var y, n := kk / 0x10, kk % 0x10;
    var w := Word(ImmFamily(op), x, y, n);
    assert Encode(WithImm(op, x, kk)) == w;
    FamilyWord(ImmFamily(op), x, y, n);
    ImmFamilyInverse(op, w, x, y, n, kk, x * 0x100 + kk);
  }

  lemma DecodeEncodeRegs(op: RegOp, x: Nibble, y: Nibble)
    ensures Decode(Encode(WithRegs(op, x, y))) == WithRegs(op, x, y)
  {
    var (f, n) := RegCode(op);
    var w := Word(f, x, y, n);
    FamilyWord(f, x, y, n);
    RegCodeInverse(op, w, x, y, y * 0x10 + n, x * 0x100 + y * 0x10 + n);
  }

  /** A word outside family 0 decodes through the guards of its family, applied to its own fields. */
  lemma FamilyWord(f: Nibble, x: Nibble, y: Nibble, n: Nibble)
    requires f != 0
    ensures var w := Word(f, x, y, n);
      Decode(w) == DecodeFamily(w, f, x, y, n, y * 0x10 + n, x * 0x100 + y * 0x10 + n)
  {
    WordFields(f, x, y, n);
  }

  /** The family guards select exactly the register-and-byte operation whose family digit they test. */
  lemma ImmFamilyInverse(op: ImmOp, w: U16, x: Nibble, y: Nibble, n: Nibble, kk: Byte, nnn: Addr)
    ensures ImmFamily(op) != 0
    ensures DecodeFamily(w, ImmFamily(op), x, y, n, kk, nnn) == WithImm(op, x, kk)
  {
  }

  /** The family and low-digit guards select exactly the two-register operation whose code they test. */
  lemma RegCodeInverse(op: RegOp, w: U16, x: Nibble, y: Nibble, kk: Byte, nnn: Addr)
    ensures RegCode(op).0 != 0
    ensures DecodeFamily(w, RegCode(op).0, x, y, RegCode(op).1, kk, nnn) == WithRegs(op, x, y)
  {
  }

  lemma DecodeEncodeUnary(op: UnaryOp, x: Nibble)
    ensures Decode(Encode(WithReg(op, x))) == WithReg(op, x)
  {
    var w := Encode(WithReg(op, x));
    UnaryCodeInverse(op, w, x);
    UnaryWord(UnaryCode(op).0, x, UnaryCode(op).1);
  }

  /** A word of the E or F family decodes through the guards on its low byte. */
  lemma UnaryWord(f: Nibble, x: Nibble, kk: Byte)
    requires f == 0xE || f == 0xF
    ensures var w := f * 0x1000 + x * 0x100 + kk;
      0 <= w < 0x1_0000 &&
      Decode(w) == if f == 0xE then DecodeKey(w, x, kk) else DecodeMisc(w, x, kk)
  {
    WordFields(f, x, kk / 0x10, kk % 0x10);
  }

  /** The E and F guards select exactly the operation whose code they test. */
  lemma UnaryCodeInverse(op: UnaryOp, w: U16, x: Nibble)
    ensures UnaryCode(op).0 == 0xE ==> DecodeKey(w, x, UnaryCode(op).1) == WithReg(op, x)
    ensures UnaryCode(op).0 == 0xF ==> DecodeMisc(w, x, UnaryCode(op).1) == WithReg(op, x)
    ensures UnaryCode(op).0 in {0xE, 0xF}
  {
  }

  /**
   The literal words are tried before the family guards: 00E0 and 00EE are
   not unknown family-0 words, while 0123, 5xy1, 8xy8 and Ex9F fall through
   every guard.
   */
  lemma DecodeExamples()
    ensures Decode(0x00E0) == Cls && Decode(0x00EE) == Ret
    ensures Decode(0x0123).Unknown? && Decode(0x5121).Unknown?
    ensures Decode(0x8AB8).Unknown? && Decode(0xE39F).Unknown?
  {
    DecodeUnknown(0x0123);
    DecodeUnknown(0x5121);
    DecodeUnknown(0x8AB8);
    DecodeUnknown(0xE39F);
  }
}
