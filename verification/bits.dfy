/**
 Machine integer widths used by the interpreter, an `Option` for the
 source's `Option<usize>`, and the bitwise operators the instruction set
 needs on bytes.

 Rust's `u8` and `u16` are modelled as bounded subsets of `int`; wherever the
 source wraps or truncates, the model writes the `mod` out explicitly. The
 bitwise operators `&`, `|` and `^` are defined bit by bit on the binary
 digits of their operands.
 */
module Bits {

  /** An unsigned 8-bit value (`u8`). */
  type Byte = b: int | 0 <= b < 0x100

  /** An unsigned 16-bit value (`u16`): instruction words, the program counter, the index register. */
  type U16 = w: int | 0 <= w < 0x1_0000

  /** A 4-bit instruction field: a register index, a key number or a sprite height. */
  type Nibble = n: int | 0 <= n < 0x10

  /** A 12-bit immediate address (the `nnn` field). */
  type Addr = a: int | 0 <= a < 0x1000

  datatype Option<+T> = None | Some(value: T)

  function Pow2(n: nat): (p: nat)
    ensures p > 0
  {
    if n == 0 then 1 else 2 * Pow2(n - 1)
  }

  /** Binary digit `k` of `v` (digit 0 is the least significant). */
  predicate Bit(v: nat, k: nat)
  {
    if k == 0 then v % 2 == 1 else Bit(v / 2, k - 1)
  }

  /** The three bitwise connectives of the instruction set. */
  datatype BitOp = AndOp | OrOp | XorOp

  function Apply(op: BitOp, x: bool, y: bool): bool
  {
    match op
    case AndOp => x && y
    case OrOp => x || y
    case XorOp => x != y
  }

  /** `op` applied to each of the low `n` binary digits of `a` and `b`. */
  function Bitwise(op: BitOp, a: nat, b: nat, n: nat): (r: nat)
    ensures r < Pow2(n)
  {
    if n == 0 then 0
    else (if Apply(op, a % 2 == 1, b % 2 == 1) then 1 else 0) + 2 * Bitwise(op, a / 2, b / 2, n - 1)
  }

  /** Digit `k` of a bitwise combination is the connective applied to digit `k` of the operands. */
  lemma {:induction false} BitwiseBit(op: BitOp, a: nat, b: nat, n: nat, k: nat)
    requires k < n
    ensures Bit(Bitwise(op, a, b, n), k) <==> Apply(op, Bit(a, k), Bit(b, k))
  {
    if k > 0 {
      BitwiseBit(op, a / 2, b / 2, n - 1, k - 1);
    }
  }

  /** A number below `2^n` with no digit set among the low `n` is zero. */
  lemma {:induction false} NoBitsIsZero(v: nat, n: nat)
    requires v < Pow2(n)
    requires forall k :: 0 <= k < n ==> !Bit(v, k)
    ensures v == 0
  {
    if n > 0 {
      assert !Bit(v, 0);
      forall k | 0 <= k < n - 1
        ensures !Bit(v / 2, k)
      {
        assert !Bit(v, k + 1);
      }
      NoBitsIsZero(v / 2, n - 1);
    }
  }

  lemma ByteBound()
    ensures Pow2(8) == 0x100
  {
  }

  /** `a & b` on `u8`. */
  function BitAnd(a: Byte, b: Byte): Byte
  {
    ByteBound();
    Bitwise(AndOp, a, b, 8)
  }

  /** `a | b` on `u8`. */
  function BitOr(a: Byte, b: Byte): Byte
  {
    ByteBound();
    Bitwise(OrOp, a, b, 8)
  }

  /** `a ^ b` on `u8`. */
  function BitXor(a: Byte, b: Byte): Byte
  {
    ByteBound();
    Bitwise(XorOp, a, b, 8)
  }

  /** `1 << k` for a bit position of a byte. */
  function BitMask(k: nat): (m: Byte)
    requires k < 8
    ensures Bit(m, k)
    ensures forall j :: 0 <= j < 8 && j != k ==> !Bit(m, j)
  {
    ByteBound();
    MaskBits(k);
    Pow2(k)
  }

  lemma {:induction false} MaskBits(k: nat)
    ensures Bit(Pow2(k), k)
    ensures forall j :: 0 <= j < k ==> !Bit(Pow2(k), j)
    ensures forall j :: k < j ==> !Bit(Pow2(k), j)
  {
    if k == 0 {
      forall j | 0 < j
        ensures !Bit(1, j)
      {
        ZeroHasNoBits(j - 1);
      }
    } else {
      MaskBits(k - 1);
      assert Pow2(k) / 2 == Pow2(k - 1);
    }
  }

  lemma {:induction false} ZeroHasNoBits(j: nat)
    ensures !Bit(0, j)
  {
    if j > 0 {
      ZeroHasNoBits(j - 1);
    }
  }

  /** `b & (1 << k)` is non-zero exactly when bit `k` of `b` is set. */
  lemma BitAndMask(b: Byte, k: nat)
    requires k < 8
    ensures (BitAnd(b, BitMask(k)) != 0) <==> Bit(b, k)
  {
    var r := BitAnd(b, BitMask(k));
    BitwiseBit(AndOp, b, BitMask(k), 8, k);
    if !Bit(b, k) {
      forall j | 0 <= j < 8
        ensures !Bit(r, j)
      {
        BitwiseBit(AndOp, b, BitMask(k), 8, j);
      }
      ByteBound();
      NoBitsIsZero(r, 8);
    } else {
      ZeroHasNoBits(k);
    }
  }
}
