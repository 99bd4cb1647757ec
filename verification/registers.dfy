/**
 The sixteen 8-bit registers V0..VF of `src/registers.rs`. Register 15 (VF)
 doubles as the flag written by the carry, borrow, shift and draw operations.

 `add_inplace` and `sub_inplace` are modelled as written: they compute with
 their register INDEX arguments, not with the registers' contents.

 Several names the interpreter calls do not exist in `registers.rs`
 (`shitf_right_inplace`, `sub_n`, `shift_left_inplace`, `slice`,
 `copy_from`), and `vx_set` is private there. Each is modelled below as a
 separately named function whose contract is marked ASSUMPTION: the effect is
 the one the CHIP-8 instruction it serves is documented to have, with operands
 read before the flag is written, as `add_inplace` does.
 */
module RegisterFile {
  import opened Bits

  const REGISTERS_NUM: nat := 16

  /** Index of the flag register VF. */
  const VF: nat := 0xF

  type RegArray = s: seq<Byte> | |s| == REGISTERS_NUM witness seq(REGISTERS_NUM, _ => 0)

  datatype Registers = Registers(regs: RegArray)

  /** Every register other than `a` and `b` is as in `r`. */
  predicate SameExcept(r: Registers, r': Registers, a: nat, b: nat)
  {
    forall j :: 0 <= j < REGISTERS_NUM && j != a && j != b ==> r'.regs[j] == r.regs[j]
  }

  /** `Registers::new`: all registers zero. */
  function New(): (r: Registers)
    ensures forall i :: 0 <= i < REGISTERS_NUM ==> r.regs[i] == 0
  {
    Registers(seq(REGISTERS_NUM, _ => 0))
  }

  /** `read`; indexing past register 15 panics. */
  function Read(r: Registers, n: Byte): (v: Byte)
    requires n < REGISTERS_NUM
    ensures Slice(r, n, n + 1) == [v]
  {
    r.regs[n]
  }

  /** `set`; indexing past register 15 panics. */
  function Set(r: Registers, i: Byte, n: Byte): (r': Registers)
    requires i < REGISTERS_NUM
    ensures Read(r', i) == n
    ensures SameExcept(r, r', i, i)
  {
    Registers(r.regs[i := n])
  }

  /** `set` then `read` of another register sees the old value; a second `set` overrides the first. */
  lemma SetIsLocal(r: Registers, i: Byte, j: Byte, m: Byte, n: Byte)
    requires i < REGISTERS_NUM && j < REGISTERS_NUM
    ensures i != j ==> Read(Set(r, i, n), j) == Read(r, j)
    ensures Set(Set(r, i, m), i, n) == Set(r, i, n)
    ensures Set(r, i, Read(r, i)) == r
  {
  }

  /** `vx_set`: write VF. ASSUMPTION: callable from the interpreter (the source declares it private). */
  function VxSet(r: Registers, val: Byte): (r': Registers)
    ensures r'.regs[VF] == val
    ensures SameExcept(r, r', VF, VF)
  {
    Registers(r.regs[VF := val])
  }

  /**
   `add_inplace(lhs, rhs)`: VF := 1 exactly when `lhs + rhs` exceeds 255, then
   register `lhs` := `(lhs + rhs) & 0xFF`. The operands are the index
   arguments themselves; with `lhs == 15` the sum overwrites the flag.
   */
  function AddInplace(r: Registers, lhs: Byte, rhs: Byte): (r': Registers)
    requires lhs < REGISTERS_NUM
    ensures r'.regs[lhs] == (lhs as int + rhs) % 0x100
    ensures lhs != VF ==> r'.regs[VF] == (if lhs as int + rhs > 0xFF then 1 else 0)
    ensures SameExcept(r, r', lhs, VF)
  {
    var sum := lhs as int + rhs;
    var flagged := VxSet(r, if sum > 0xFF then 1 else 0);
    Registers(flagged.regs[lhs := sum % 0x100])
  }

  /**
   `sub_inplace(lhs, rhs)`: VF := 1 exactly when `lhs > rhs`, then register
   `lhs` := `lhs - rhs` wrapped to 8 bits; again on the index arguments.
   */
  function SubInplace(r: Registers, lhs: Byte, rhs: Byte): (r': Registers)
    requires lhs < REGISTERS_NUM
    ensures r'.regs[lhs] == (lhs as int - rhs) % 0x100
    ensures lhs != VF ==> r'.regs[VF] == (if lhs > rhs then 1 else 0)
    ensures SameExcept(r, r', lhs, VF)
  {
    var flagged := VxSet(r, if lhs > rhs then 1 else 0);
    Registers(flagged.regs[lhs := (lhs as int - rhs) % 0x100])
  }

  /** Whatever the registers hold, `add_inplace` and `sub_inplace` write the same target and flag values:
      the results depend on the index arguments only. */
  lemma ArithmeticIgnoresContents(r1: Registers, r2: Registers, lhs: Byte, rhs: Byte)
    requires lhs < REGISTERS_NUM
    ensures AddInplace(r1, lhs, rhs).regs[lhs] == AddInplace(r2, lhs, rhs).regs[lhs]
    ensures SubInplace(r1, lhs, rhs).regs[lhs] == SubInplace(r2, lhs, rhs).regs[lhs]
    ensures lhs != VF ==> AddInplace(r1, lhs, rhs).regs[VF] == AddInplace(r2, lhs, rhs).regs[VF]
    ensures lhs != VF ==> SubInplace(r1, lhs, rhs).regs[VF] == SubInplace(r2, lhs, rhs).regs[VF]
  {
  }

  /** `or`: `regs[a] | regs[b]`, bit by bit. */
  function Or(r: Registers, a: Byte, b: Byte): (v: Byte)
    requires a < REGISTERS_NUM && b < REGISTERS_NUM
    ensures forall k :: 0 <= k < 8 ==> (Bit(v, k) <==> Bit(r.regs[a], k) || Bit(r.regs[b], k))
  {
    var v := BitOr(r.regs[a], r.regs[b]);
    forall k | 0 <= k < 8
      ensures Bit(v, k) <==> Bit(r.regs[a], k) || Bit(r.regs[b], k)
    {
      BitwiseBit(OrOp, r.regs[a], r.regs[b], 8, k);
    }
    v
  }

  /** `and`: `regs[a] & regs[b]`, bit by bit. */
  function And(r: Registers, a: Byte, b: Byte): (v: Byte)
    requires a < REGISTERS_NUM && b < REGISTERS_NUM
    ensures forall k :: 0 <= k < 8 ==> (Bit(v, k) <==> Bit(r.regs[a], k) && Bit(r.regs[b], k))
  {
    var v := BitAnd(r.regs[a], r.regs[b]);
    forall k | 0 <= k < 8
      ensures Bit(v, k) <==> Bit(r.regs[a], k) && Bit(r.regs[b], k)
    {
      BitwiseBit(AndOp, r.regs[a], r.regs[b], 8, k);
    }
    v
  }

  /** `xor`: `regs[a] ^ regs[b]`, bit by bit. */
  function Xor(r: Registers, a: Byte, b: Byte): (v: Byte)
    requires a < REGISTERS_NUM && b < REGISTERS_NUM
    ensures forall k :: 0 <= k < 8 ==> (Bit(v, k) <==> Bit(r.regs[a], k) != Bit(r.regs[b], k))
  {
    var v := BitXor(r.regs[a], r.regs[b]);
    forall k | 0 <= k < 8
      ensures Bit(v, k) <==> Bit(r.regs[a], k) != Bit(r.regs[b], k)
    {
      BitwiseBit(XorOp, r.regs[a], r.regs[b], 8, k);
    }
    v
  }

  /** ASSUMPTION for `shitf_right_inplace(reg)`: VF := bit 0 of Vreg, then Vreg := Vreg >> 1. */
  function ShiftRightInplace(r: Registers, reg: Byte): (r': Registers)
    requires reg < REGISTERS_NUM
    ensures r'.regs[reg] == r.regs[reg] / 2
    ensures reg != VF ==> r'.regs[VF] == r.regs[reg] % 2
    ensures SameExcept(r, r', reg, VF)
  {
    var v := r.regs[reg];
    var flagged := VxSet(r, v % 2);
    Registers(flagged.regs[reg := v / 2])
  }

  /** ASSUMPTION for `sub_n(a, b)`: VF := 1 exactly when Vb > Va, then Va := (Vb - Va) wrapped to 8 bits. */
  function SubN(r: Registers, a: Byte, b: Byte): (r': Registers)
    requires a < REGISTERS_NUM && b < REGISTERS_NUM
    ensures r'.regs[a] == (r.regs[b] as int - r.regs[a]) % 0x100
    ensures a != VF ==> r'.regs[VF] == (if r.regs[b] > r.regs[a] then 1 else 0)
    ensures SameExcept(r, r', a, VF)
  {
    var va := r.regs[a];
    var vb := r.regs[b];
    var flagged := VxSet(r, if vb > va then 1 else 0);
    Registers(flagged.regs[a := (vb as int - va) % 0x100])
  }

  /** ASSUMPTION for `shift_left_inplace(reg)`: VF := bit 7 of Vreg, then Vreg := (Vreg << 1) wrapped to 8 bits. */
  function ShiftLeftInplace(r: Registers, reg: Byte): (r': Registers)
    requires reg < REGISTERS_NUM
    ensures r'.regs[reg] == (2 * r.regs[reg] as int) % 0x100
    ensures reg != VF ==> r'.regs[VF] == r.regs[reg] / 0x80
    ensures SameExcept(r, r', reg, VF)
  {
    var v := r.regs[reg];
    var flagged := VxSet(r, v / 0x80);
    Registers(flagged.regs[reg := (2 * v as int) % 0x100])
  }

  /** A shift right followed by a shift left of the same register clears its bit 0 and nothing else. */
  lemma ShiftRightThenLeft(r: Registers, reg: Byte)
    requires reg < REGISTERS_NUM
    ensures ShiftLeftInplace(ShiftRightInplace(r, reg), reg).regs[reg] == r.regs[reg] - r.regs[reg] % 2
  {
  }

  /** ASSUMPTION for `slice(from, to)`: the registers `from .. to`, as a byte sequence. */
  function Slice(r: Registers, from: nat, to: nat): (s: seq<Byte>)
    requires from <= to <= REGISTERS_NUM
    ensures |s| == to - from
    ensures forall i :: 0 <= i < |s| ==> s[i] == r.regs[from + i]
  {
    r.regs[from .. to]
  }

  /** ASSUMPTION for `copy_from(src)`: registers `0 .. |src|` := `src`, the rest unchanged. */
  function CopyFrom(r: Registers, src: seq<Byte>): (r': Registers)
    requires |src| <= REGISTERS_NUM
    ensures forall i :: 0 <= i < |src| ==> r'.regs[i] == src[i]
    ensures forall i :: |src| <= i < REGISTERS_NUM ==> r'.regs[i] == r.regs[i]
  {
    Registers(src + r.regs[|src|..])
  }

  /** Copying a prefix of the registers back onto them changes nothing. */
  lemma CopyFromOwnSlice(r: Registers, k: nat)
    requires k <= REGISTERS_NUM
    ensures CopyFrom(r, Slice(r, 0, k)) == r
  {
    assert CopyFrom(r, Slice(r, 0, k)).regs == r.regs;
  }
}
