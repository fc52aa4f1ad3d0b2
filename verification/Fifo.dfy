/** The bounded first-in first-out queue that both interrupt buffers of uart.c refine. */
module Fifo {
  import opened Bytes

  /** A byte arrives: it is queued, or dropped when `capacity` bytes already wait. */
  function Accept(q: seq<byte>, b: byte, capacity: nat): seq<byte> {
    if |q| < capacity then q + [b] else q
  }

  function AcceptAll(q: seq<byte>, arrivals: seq<byte>, capacity: nat): (r: seq<byte>)
    ensures q <= r
    ensures arrivals == [] ==> r == q
    ensures |q| <= capacity ==> |r| <= capacity
  {
    if arrivals == [] then q
    else Accept(AcceptAll(q, arrivals[..|arrivals| - 1], capacity), arrivals[|arrivals| - 1], capacity)
  }

  lemma {:induction false} AcceptAllConcat(q: seq<byte>, a: seq<byte>, b: seq<byte>, capacity: nat)
    ensures AcceptAll(q, a + b, capacity) == AcceptAll(AcceptAll(q, a, capacity), b, capacity)
  {
    if b == [] {
      assert a + b == a;
    } else {
      var init := b[..|b| - 1];
      assert (a + b)[..|a + b| - 1] == a + init;
      AcceptAllConcat(q, a, init, capacity);
    }
  }

  /** All arrivals, poll by poll. */
  function Flatten(polls: seq<seq<byte>>): seq<byte> {
    if polls == [] then [] else Flatten(polls[..|polls| - 1]) + polls[|polls| - 1]
  }

  lemma AcceptAllJoin(q: seq<byte>, a: seq<byte>, b: seq<byte>, c: seq<byte>, d: seq<byte>, capacity: nat)
    ensures AcceptAll(AcceptAll(AcceptAll(AcceptAll(q, a, capacity), b, capacity), c, capacity), d, capacity)
            == AcceptAll(q, a + b + c + d, capacity)
  {
    AcceptAllConcat(q, a, b, capacity);
    AcceptAllConcat(q, a + b, c, capacity);
    AcceptAllConcat(q, a + b + c, d, capacity);
  }

  /** The queue holds the arrivals in order, cut off where it filled up. */
  lemma {:induction false} AcceptAllIs(q: seq<byte>, arrivals: seq<byte>, capacity: nat)
    requires |q| <= capacity
    ensures var free := capacity - |q|;
            AcceptAll(q, arrivals, capacity) == q + if |arrivals| <= free then arrivals else arrivals[..free]
  {
    if arrivals != [] {
      var init := arrivals[..|arrivals| - 1];
      AcceptAllIs(q, init, capacity);
      var free := capacity - |q|;
      if |arrivals| <= free {
        assert init + [arrivals[|arrivals| - 1]] == arrivals;
      } else {
        assert init[..free] == arrivals[..free];
      }
    }
  }

  // ---- ring indices ---------------------------------------------------------------------------

  /** The index `n` in a ring, for the arguments that occur, all below twice the size. */
  function Wrap(n: nat, size: nat): (i: nat)
    requires n < 2 * size
    ensures i < size
  {
    if n < size then n else n - size
  }

  /** C's `x & y`. */
  function And(x: nat, y: nat): nat {
    if x == 0 || y == 0 then 0
    else 2 * And(x / 2, y / 2) + if x % 2 == 1 && y % 2 == 1 then 1 else 0
  }

  function Pow2(bits: nat): (p: nat)
    ensures p > 0
  {
    if bits == 0 then 1 else 2 * Pow2(bits - 1)
  }

  ghost predicate IsPowerOfTwo(size: nat) {
    exists bits: nat :: size == Pow2(bits)
  }

  /** The mask of the C code wraps an index, for a size that is a power of two. */
  lemma {:induction false} MaskWraps(n: nat, size: nat, bits: nat)
    requires size == Pow2(bits) && n < 2 * size
    ensures And(n, size - 1) == Wrap(n, size)
  {
    if bits > 0 && n > 0 {
      assert (size - 1) / 2 == Pow2(bits - 1) - 1 && (size - 1) % 2 == 1;
      MaskWraps(n / 2, Pow2(bits - 1), bits - 1);
    }
  }

  /** `n & (size - 1)` */
  function Mask(n: nat, size: nat): (i: nat)
    requires IsPowerOfTwo(size) && n < 2 * size
    ensures i == Wrap(n, size)
  {
    MaskWrapsSize(n, size);
    And(n, size - 1)
  }

  lemma MaskWrapsSize(n: nat, size: nat)
    requires IsPowerOfTwo(size) && n < 2 * size
    ensures And(n, size - 1) == Wrap(n, size)
  {
    var bits: nat :| size == Pow2(bits);
    MaskWraps(n, size, bits);
  }

  /** From 256 on a power of two is whole pages. */
  lemma PowerOfPages(size: nat)
    requires IsPowerOfTwo(size) && size >= 0x100
    ensures size % 0x100 == 0
  {
    var bits: nat :| size == Pow2(bits);
    PagesFrom(bits);
  }

  lemma {:induction false} PagesFrom(bits: nat)
    requires Pow2(bits) >= 0x100
    ensures Pow2(bits) % 0x100 == 0
  {
    assert Pow2(8) == 0x100;
    if bits > 8 {
      Pow2Grows(8, bits - 1);
      PagesFrom(bits - 1);
    } else if bits < 8 {
      Pow2Grows(bits, 7);
    }
  }

  lemma {:induction false} Pow2Grows(a: nat, b: nat)
    requires a <= b
    ensures Pow2(a) <= Pow2(b)
  {
    if a < b {
      Pow2Grows(a, b - 1);
    }
  }

  /** The bytes in `length` slots of a ring, from slot `first` on. */
  function Slots(buf: seq<byte>, first: nat, length: nat): (q: seq<byte>)
    requires first < |buf| && length <= |buf|
    ensures |q| == length && forall k :: 0 <= k < length ==> q[k] == buf[Wrap(first + k, |buf|)]
  {
    seq(length, k requires 0 <= k < length => buf[Wrap(first + k, |buf|)])
  }
}
