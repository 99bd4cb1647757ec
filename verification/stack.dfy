/**
 The sixteen-slot return-address stack of `src/stack.rs`.

 The stack pointer `sp` counts the live slots. Pushing onto a full stack
 indexes past the array and popping an empty one underflows `sp`; both panic in
 the source and are preconditions here. The live contents `buf[..sp]` are the
 abstract stack, bottom first; `push` and `pop` are specified against it.
 */
module CallStack {
  import opened Bits

  const STACK_SIZE: nat := 16

  type StackBuf = s: seq<U16> | |s| == STACK_SIZE witness seq(STACK_SIZE, _ => 0)

  /** A stack pointer that never exceeds the number of slots. */
  type StackPtr = n: int | 0 <= n <= STACK_SIZE

  datatype Stack = Stack(buf: StackBuf, sp: StackPtr)

  /** The live return addresses, bottom first. */
  function Contents(s: Stack): seq<U16>
  {
    s.buf[..s.sp]
  }

  /** `Stack::new`: an empty stack. */
  function New(): (s: Stack)
    ensures s.sp == 0 && Contents(s) == []
  {
    Stack(seq(STACK_SIZE, _ => 0), 0)
  }

  /** `top`: the most recently pushed live address; panics on an empty stack. */
  function Top(s: Stack): (a: U16)
    requires s.sp > 0
    ensures a == Contents(s)[|Contents(s)| - 1]
  {
    s.buf[s.sp - 1]
  }

  /** `push`: panics when all sixteen slots are in use. */
  function Push(s: Stack, address: U16): (s': Stack)
    requires s.sp < STACK_SIZE
    ensures Contents(s') == Contents(s) + [address]
  {
    Stack(s.buf[s.sp := address], s.sp + 1)
  }

  /** `pop`: returns the top address and drops it; panics on an empty stack. */
  function Pop(s: Stack): (r: (U16, Stack))
    requires s.sp > 0
    ensures Contents(r.1) + [r.0] == Contents(s)
  {
    (Top(s), s.(sp := s.sp - 1))
  }

  /** After `push(a)`, `top()` is `a` (the `empty_push` unit test). */
  lemma PushThenTop(s: Stack, a: U16)
    requires s.sp < STACK_SIZE
    ensures Top(Push(s, a)) == a
  {
    assert Contents(Push(s, a)) == Contents(s) + [a];
  }

  /** `push(a)` then `pop()` returns `a` and restores the live contents and the depth. */
  lemma PushThenPop(s: Stack, a: U16)
    requires s.sp < STACK_SIZE
    ensures Pop(Push(s, a)).0 == a
    ensures Contents(Pop(Push(s, a)).1) == Contents(s)
    ensures Pop(Push(s, a)).1.sp == s.sp
  {
    var p := Pop(Push(s, a));
    assert Contents(p.1) + [p.0] == Contents(s) + [a];
    assert (Contents(p.1) + [p.0])[|Contents(s)|] == a;
    assert Contents(p.1) == (Contents(p.1) + [p.0])[..|Contents(s)|];
  }

  /**
   LIFO order, the `stack_pop` unit test generalised: push every element of
   `xs` onto a new stack, then pop until it is empty; the addresses come back
   in reverse order.
   */
  method PushThenPopAll(xs: seq<U16>) returns (popped: seq<U16>)
    requires |xs| <= STACK_SIZE
    ensures |popped| == |xs|
    ensures forall i :: 0 <= i < |xs| ==> popped[i] == xs[|xs| - 1 - i]
  {
    var s := New();
    var i := 0;
    while i < |xs|
      invariant 0 <= i <= |xs|
      invariant s.sp == i
      invariant Contents(s) == xs[..i]
    {
      s := Push(s, xs[i]);
      assert xs[..i + 1] == xs[..i] + [xs[i]];
      i := i + 1;
    }
    popped := [];
    while s.sp > 0
      invariant Contents(s) == xs[..s.sp]
      invariant |popped| == |xs| - s.sp
      invariant forall j :: 0 <= j < |popped| ==> popped[j] == xs[|xs| - 1 - j]
      decreases s.sp
    {
      var r := Pop(s);
      assert Contents(r.1) + [r.0] == xs[..s.sp];
      assert r.0 == xs[..s.sp][s.sp - 1];
      assert Contents(r.1) == xs[..s.sp][..s.sp - 1];
      popped := popped + [r.0];
      s := r.1;
    }
  }

  /** The `stack_pop` unit test itself: pushing 0..15 and popping sixteen times yields 15, 14, ..., 0. */
  method StackPopTest() returns (popped: seq<U16>)
    ensures popped == seq(STACK_SIZE, i requires 0 <= i < STACK_SIZE => STACK_SIZE - 1 - i)
  {
    var xs: seq<U16> := seq(STACK_SIZE, i requires 0 <= i < STACK_SIZE => i);
    popped := PushThenPopAll(xs);
  }
}
