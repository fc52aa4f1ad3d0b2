/**
  The receive side of driver/servant64/uart.c: the interrupt handler fills a ring that the
  main line empties, and may run between any two of its accesses.

  Each main-line method takes a schedule: the bytes whose interrupts are served in each of
  its gaps.  Stores of an index are atomic.  Loads of the head are made of two byte loads, as
  in the 16-bit build (USART0_LARGE_BUFFER); with up to 256 slots the second byte is
  always 0, which is the 8-bit build.
 */
module UartRx {
  import opened Bytes
  import opened Fifo

  datatype Reply = Byte(value: byte) | NoData

  /** The sizes that uart.h accepts. */
  ghost predicate IsSize(size: nat) {
    2 <= size <= 0x1_0000 && IsPowerOfTwo(size)
  }

  /** The bytes that arrive in the gaps of one main-line call. */
  datatype Gaps = Gaps(inHead: seq<byte>, beforeTail: seq<byte>, beforeStore: seq<byte>, beforeData: seq<byte>)

  /** A head loaded as low byte, then high byte. */
  function Torn(before: nat, after: nat): nat {
    before % 0x100 + after / 0x100 * 0x100
  }

  /**
    Whether the comparison of head and tail finds them equal, when `before` bytes waited at
    the first half of the load and `after` at the second.
   */
  predicate LooksEmpty(size: nat, tail: nat, before: nat, after: nat)
    requires tail < size && before <= after < size
  {
    Torn(Wrap(tail + before, size), Wrap(tail + after, size)) == tail
  }

  /** With up to 256 slots the comparison is exact. */
  lemma NarrowIsExact(size: nat, tail: nat, before: nat, after: nat)
    requires tail < size <= 0x100 && before <= after < size
    ensures LooksEmpty(size, tail, before, after) <==> before == 0
  {
  }

  lemma TornInRange(size: nat, before: nat, after: nat)
    requires IsSize(size) && before < size && after < size
    ensures Torn(before, after) < size
    ensures size <= 0x100 ==> Torn(before, after) == before
  {
    if size >= 0x100 {
      PowerOfPages(size);
    }
  }

  /** In every build a buffer that looks non-empty is not empty. */
  lemma NeverLooksFuller(size: nat, tail: nat, before: nat, after: nat)
    requires tail < size && before <= after < size && !LooksEmpty(size, tail, before, after)
    ensures after > 0
  {
  }

  /**
    With more slots, and at most one interrupt between the two halves, bytes that wait are
    overlooked exactly when all but 256 slots are full, the load is torn, and the head
    crosses to the page of the tail just then.
   */
  lemma WideOverlooks(size: nat, tail: nat, before: nat, after: nat)
    requires IsSize(size) && size >= 0x100 && tail < size && 0 < before <= after <= before + 1 && after < size
    ensures LooksEmpty(size, tail, before, after) <==>
            before == size - 0x100 && after == before + 1 && tail % 0x100 == 0xff
  {
    PowerOfPages(size);
    PagesOverlook(size, tail, before, after);
  }

  lemma PagesOverlook(size: nat, tail: nat, before: nat, after: nat)
    requires size % 0x100 == 0 && tail < size && 0 < before <= after <= before + 1 && after < size
    ensures LooksEmpty(size, tail, before, after) <==>
            before == size - 0x100 && after == before + 1 && tail % 0x100 == 0xff
  {
    var pages, q, r := size / 0x100, tail / 0x100, tail % 0x100;
    var h0, h1 := Wrap(tail + before, size), Wrap(tail + after, size);
    assert LooksEmpty(size, tail, before, after) <==> h0 % 0x100 == r && h1 / 0x100 == q;
  }

  /** In the 512-byte build, with 256 bytes waiting and one more arriving in the middle of the load. */
  lemma TwoPagesOverlook()
    ensures LooksEmpty(512, 255, 256, 257)
  {
    assert 512 == Pow2(9);
    WideOverlooks(512, 255, 256, 257);
  }

  /** The head as a main-line load finds it, when `before` and `after` bytes wait at its two halves. */
  function Loaded(size: nat, tail: nat, before: nat, after: nat): (h: nat)
    requires IsSize(size) && tail < size && before <= after < size
    ensures h < size && (h == tail <==> LooksEmpty(size, tail, before, after))
    ensures size <= 0x100 ==> h == Wrap(tail + before, size)
  {
    TornInRange(size, Wrap(tail + before, size), Wrap(tail + after, size));
    Torn(Wrap(tail + before, size), Wrap(tail + after, size))
  }

  lemma LoadedIs(size: nat, tail: nat, before: nat, after: nat, h0: nat, h1: nat, low: nat, h: nat)
    requires IsSize(size) && tail < size && before <= after < size
    requires h0 == Wrap(tail + before, size) && h1 == Wrap(tail + after, size)
    requires low == h0 % 0x100 && h == low + h1 / 0x100 * 0x100
    ensures h == Loaded(size, tail, before, after)
  {
  }

  /** What uart0_available computes from it. */
  function Reported(size: nat, tail: nat, before: nat, after: nat): (n: nat)
    requires IsSize(size) && tail < size && before <= after < size
    ensures size <= 0x100 ==> n == before
    ensures n == 0 <==> LooksEmpty(size, tail, before, after)
  {
    Wrap(size + Loaded(size, tail, before, after) - tail, size)
  }

  /**
    With more slots, and at most one interrupt between the two halves, it is the length at the
    first half, unless the head crosses a page just then: then it is 255 more than the length at
    the second half, modulo the size.  So it overstates what waits exactly if that stays below
    the size.
   */
  lemma WideOverstates(size: nat, tail: nat, before: nat, after: nat)
    requires IsSize(size) && size >= 0x100 && tail < size && before <= after <= before + 1 && after < size
    ensures var crosses := after == before + 1 && Wrap(tail + before, size) % 0x100 == 0xff;
            && Reported(size, tail, before, after) == (if crosses then Wrap(after + 0xff, size) else before)
            && (Reported(size, tail, before, after) > after <==> crosses && after + 0xff < size)
  {
    PowerOfPages(size);
    var h0, h1 := Wrap(tail + before, size), Wrap(tail + after, size);
    TornCrosses(size, h0, h1, after == before);
    BehindTail(size, tail, before);
    BehindTail(size, tail, after);
  }

  /** One step of the head over a page. */
  lemma TornCrosses(size: nat, h0: nat, h1: nat, still: bool)
    requires size % 0x100 == 0 && h0 < size && h1 == if still then h0 else Wrap(h0 + 1, size)
    ensures Torn(h0, h1) == if !still && h0 % 0x100 == 0xff then h1 + 0xff else h0
  {
    var q, r := h0 / 0x100, h0 % 0x100;
    if r == 0xff {
      assert h0 + 1 == 0x100 * (q + 1);
    } else {
      assert (h0 + 1) / 0x100 == q;
    }
  }

  lemma BehindTail(size: nat, tail: nat, length: nat)
    requires tail < size && length < size
    ensures Wrap(size + Wrap(tail + length, size) - tail, size) == length
  {
  }

  /** In the 512-byte build, with 255 bytes waiting and one more arriving in the middle of the load. */
  lemma TwoPagesOverstate()
    ensures IsSize(512) && Reported(512, 0, 255, 256) == 511
  {
    assert 512 == Pow2(9);
    WideOverstates(512, 0, 255, 256);
  }

  /**
    A tail stored in two halves while `length` bytes wait: when an interrupt handler between the
    halves takes the buffer for full and drops its byte.  Where the tail crosses a page that is
    at a length at which there is room.  `lowFirst` says which half the compiler stores first.
   */
  lemma TornTailDrops(size: nat, tail: nat, length: nat, lowFirst: bool)
    requires IsSize(size) && size >= 0x200 && tail < size && 0 < length < size
    ensures var next := Wrap(tail + 1, size);
            var seen := if lowFirst then Torn(next, tail) else Torn(tail, next);
            Wrap(Wrap(tail + length, size) + 1, size) == seen <==>
            if tail % 0x100 == 0xff then length == (if lowFirst then size - 0x100 else 0xff)
            else !lowFirst && length == size - 1
  {
    PowerOfPages(size);
    TornTailPages(size, tail, length, lowFirst);
  }

  lemma TornTailPages(size: nat, tail: nat, length: nat, lowFirst: bool)
    requires size % 0x100 == 0 && size >= 0x200 && tail < size && 0 < length < size
    ensures var next := Wrap(tail + 1, size);
            var seen := if lowFirst then Torn(next, tail) else Torn(tail, next);
            Wrap(Wrap(tail + length, size) + 1, size) == seen <==>
            if tail % 0x100 == 0xff then length == (if lowFirst then size - 0x100 else 0xff)
            else !lowFirst && length == size - 1
  {
    var next := Wrap(tail + 1, size);
    if tail % 0x100 == 0xff {
      assert next % 0x100 == 0;
    } else {
      assert next == tail + 1 && next / 0x100 == tail / 0x100;
    }
  }

  /** What waits after the first `k` polls. */
  function AfterPolls(q: seq<byte>, polls: seq<seq<byte>>, k: nat, capacity: nat): seq<byte>
    requires k <= |polls|
  {
    AcceptAll(q, Flatten(polls[..k]), capacity)
  }

  /** What poll `k` reports. */
  function Polled(size: nat, tail: nat, q: seq<byte>, polls: seq<seq<byte>>, k: nat): nat
    requires IsSize(size) && tail < size && |q| < size && k < |polls|
  {
    OnePoll(q, polls, k, size - 1);
    Reported(size, tail, |AfterPolls(q, polls, k, size - 1)|, |AfterPolls(q, polls, k + 1, size - 1)|)
  }

  lemma OnePoll(q: seq<byte>, polls: seq<seq<byte>>, k: nat, capacity: nat)
    requires k < |polls|
    ensures AfterPolls(q, polls, k + 1, capacity) == AcceptAll(AfterPolls(q, polls, k, capacity), polls[k], capacity)
  {
    assert polls[..k + 1][..k] == polls[..k];
    AcceptAllConcat(q, Flatten(polls[..k]), polls[k], capacity);
  }

  class Receiver {
    const size: nat
    const buf: array<byte>
    var head: nat
    var tail: nat

    ghost predicate Valid()
      reads this, buf
    {
      IsSize(size) && buf.Length == size && head < size && tail < size
    }

    function Length(): nat
      requires Valid()
      reads this, buf
    {
      Wrap(size + head - tail, size)
    }

    /** The bytes that wait, oldest first: the slots behind `tail` up to `head`. */
    ghost function Contents(): (q: seq<byte>)
      requires Valid()
      reads this, buf
      ensures |q| == Length()
    {
      Slots(buf[..], Wrap(tail + 1, size), Length())
    }

    constructor (size: nat)
      requires IsSize(size)
      ensures Valid() && Contents() == [] && this.size == size && fresh(buf)
    {
      this.size := size;
      buf := new byte[size](_ => 0);
      head, tail := 0, 0;
    }

    /** ISR(UART0_RECEIVE_INTERRUPT); the error flags are left out. */
    method Interrupt(data: byte)
      requires Valid()
      modifies this`head, buf
      ensures Valid() && Contents() == Accept(old(Contents()), data, size - 1)
      ensures buf[tail] == old(buf[tail])
    {
      var tmphead := Mask(head + 1, size);
      FullWhen();
      if tmphead == tail {
      } else {
        StoreByte(tmphead, data);
      }
    }

    /** The two stores of the interrupt, which nothing interrupts. */
    method StoreByte(tmphead: nat, data: byte)
      requires Valid() && tmphead == Wrap(head + 1, size) && tmphead != tail
      modifies this`head, buf
      ensures Valid() && Contents() == old(Contents()) + [data] && |Contents()| <= size - 1
      ensures buf[tail] == old(buf[tail])
    {
      head := tmphead;
      buf[tmphead] := data;
    }

    /** Any number of receive interrupts. */
    method Interrupts(arrivals: seq<byte>)
      requires Valid()
      modifies this`head, buf
      ensures Valid() && Contents() == AcceptAll(old(Contents()), arrivals, size - 1)
      ensures buf[tail] == old(buf[tail])
    {
      assert arrivals[..0] == [];
      for i := 0 to |arrivals|
        invariant Valid() && Contents() == AcceptAll(old(Contents()), arrivals[..i], size - 1)
        invariant buf[tail] == old(buf[tail])
      {
        assert arrivals[..i + 1][..i] == arrivals[..i];
        Interrupt(arrivals[i]);
      }
      assert arrivals[..|arrivals|] == arrivals;
    }

    /** Load the head in two halves. */
    method LoadHead(gap: seq<byte>) returns (h: nat)
      requires Valid()
      modifies this`head, buf
      ensures Valid() && Contents() == AcceptAll(old(Contents()), gap, size - 1)
      ensures buf[tail] == old(buf[tail])
      ensures old(Length()) <= Length()
      ensures h == Loaded(size, tail, old(Length()), Length())
    {
      var low := head % 0x100;
      ghost var before := head;
      HeadBehindTail();
      Interrupts(gap);
      h := low + head / 0x100 * 0x100;
      HeadBehindTail();
      LoadedIs(size, tail, old(Length()), Length(), before, head, low, h);
    }

    lemma FullWhen()
      requires Valid()
      ensures Wrap(head + 1, size) == tail <==> |Contents()| == size - 1
      ensures |Contents()| <= size - 1
    {
    }

    lemma HeadBehindTail()
      requires Valid()
      ensures head == Wrap(tail + Length(), size)
    {
    }

    /** What waits after the gaps up to the tail store. */
    ghost function Waiting(q: seq<byte>, g: Gaps): seq<byte>
      reads this, buf
      requires Valid()
    {
      AcceptAll(AcceptAll(AcceptAll(q, g.inHead, size - 1), g.beforeTail, size - 1), g.beforeStore, size - 1)
    }

    /** uart0_getc: the tail store takes the oldest byte, wherever the interrupts fall. */
    method Getc(g: Gaps) returns (r: Reply)
      requires Valid()
      modifies this, buf
      ensures Valid()
      ensures var q := old(Contents());
              r.NoData? <==> LooksEmpty(size, old(tail), |q|, |AcceptAll(q, g.inHead, size - 1)|)
      ensures size <= 0x100 ==> (r.NoData? <==> old(Contents()) == [])
      ensures r.NoData? ==>
                tail == old(tail)
                && Contents() == AcceptAll(AcceptAll(old(Contents()), g.inHead, size - 1), g.beforeTail, size - 1)
      ensures var q := Waiting(old(Contents()), g);
              !r.NoData? ==>
                q != [] && r.value == q[0] && Contents() == AcceptAll(q[1..], g.beforeData, size - 1)
    {
      var h := LoadHead(g.inHead);
      ghost var waiting := |Contents()|;
      if size <= 0x100 {
        NarrowIsExact(size, tail, |old(Contents())|, waiting);
      }
      Interrupts(g.beforeTail);
      if h == tail {
        return NoData;
      }
      NeverLooksFuller(size, tail, old(Length()), waiting);
      Interrupts(g.beforeStore);
      var tmptail := Mask(tail + 1, size);
      StoreTail(tmptail);
      Interrupts(g.beforeData);
      r := Byte(buf[tmptail]);
    }

    /** The store of the tail gives up the slot of the oldest byte, which no interrupt refills. */
    method StoreTail(tmptail: nat)
      requires Valid() && Contents() != [] && tmptail == Wrap(tail + 1, size)
      modifies this`tail
      ensures Valid() && tail == tmptail && Contents() == old(Contents())[1..]
      ensures buf[tail] == old(Contents())[0]
    {
      tail := tmptail;
    }

    /** uart0_peek: the same byte, left in place. */
    method Peek(g: Gaps) returns (r: Reply)
      requires Valid()
      modifies this`head, buf
      ensures Valid()
      ensures var q := old(Contents());
              r.NoData? <==> LooksEmpty(size, tail, |q|, |AcceptAll(q, g.inHead, size - 1)|)
      ensures size <= 0x100 ==> (r.NoData? <==> old(Contents()) == [])
      ensures var q := Waiting(old(Contents()), g);
              !r.NoData? ==> q != [] && r.value == q[0] && Contents() == q
      ensures r.NoData? ==>
                Contents() == AcceptAll(AcceptAll(old(Contents()), g.inHead, size - 1), g.beforeTail, size - 1)
    {
      var h := LoadHead(g.inHead);
      ghost var waiting := |Contents()|;
      if size <= 0x100 {
        NarrowIsExact(size, tail, |old(Contents())|, waiting);
      }
      Interrupts(g.beforeTail);
      if h == tail {
        return NoData;
      }
      NeverLooksFuller(size, tail, old(Length()), waiting);
      Interrupts(g.beforeStore);
      var tmptail := Mask(tail + 1, size);
      r := Byte(buf[tmptail]);
    }

    /** uart0_flush: whatever has arrived by the store of the head is dropped. */
    method Flush(gap: seq<byte>)
      requires Valid()
      modifies this`head, buf
      ensures Valid() && Contents() == []
    {
      var t := tail;
      Interrupts(gap);
      head := t;
    }

    /** uart0_available; how far it can be off with more than 256 slots is said by WideOverstates. */
    method Available(gap: seq<byte>, later: seq<byte>) returns (n: nat)
      requires Valid()
      modifies this`head, buf
      ensures Valid()
      ensures Contents() == AcceptAll(AcceptAll(old(Contents()), gap, size - 1), later, size - 1)
      ensures size <= 0x100 ==> n == old(Length()) <= Length()
      ensures n == Reported(size, tail, old(Length()), |AcceptAll(old(Contents()), gap, size - 1)|)
      ensures n > 0 ==> Length() > 0
    {
      var h := LoadHead(gap);
      ghost var waiting := |Contents()|;
      if h != tail {
        NeverLooksFuller(size, tail, old(Length()), waiting);
      }
      n := Mask(size + h - tail, size);
      Interrupts(later);
    }

    /**
      ReadSerial of the firmware: poll until something is available, then take it.  `blocked`
      says that the schedule ran out first, `k` how many polls were made.  In every build the first
      poll that reports bytes is the last.  The 8-bit build never returns without a byte, and never
      polls on while bytes wait.
     */
    method ReadSerial(polls: seq<seq<byte>>, g: Gaps) returns (blocked: bool, k: nat, r: Reply)
      requires Valid()
      modifies this, buf
      ensures Valid() && k <= |polls|
      ensures size <= 0x100 ==> blocked || !r.NoData?
      ensures blocked ==> k == |polls|
      ensures |old(Contents())| < size && (!blocked ==> k > 0)
      ensures forall i :: 0 <= i < k ==>
                (Polled(size, old(tail), old(Contents()), polls, i) > 0 <==> !blocked && i == k - 1)
      ensures size <= 0x100 && blocked && k > 0 ==> AfterPolls(old(Contents()), polls, k - 1, size - 1) == []
      ensures size <= 0x100 && k > 1 ==> AfterPolls(old(Contents()), polls, k - 2, size - 1) == []
      ensures !r.NoData? ==>
                var arrived := Flatten(polls[..k]) + g.inHead + g.beforeTail + g.beforeStore;
                var q := AcceptAll(old(Contents()), arrived, size - 1);
                q != [] && r.value == q[0] && Contents() == AcceptAll(q[1..], g.beforeData, size - 1)
    {
      r := NoData;
      blocked, k := Poll(polls);
      if !blocked {
        ghost var arrived := Flatten(polls[..k]);
        assert Waiting(Contents(), g)
            == AcceptAll(old(Contents()), arrived + g.inHead + g.beforeTail + g.beforeStore, size - 1) by {
          AcceptAllJoin(old(Contents()), arrived, g.inHead, g.beforeTail, g.beforeStore, size - 1);
        }
        r := Getc(g);
      }
    }

    /** The polling loop, with what arrives during each poll. */
    method Poll(polls: seq<seq<byte>>) returns (blocked: bool, k: nat)
      requires Valid()
      modifies this`head, buf
      ensures Valid() && k <= |polls| && tail == old(tail)
      ensures Contents() == AfterPolls(old(Contents()), polls, k, size - 1)
      ensures !blocked ==> Contents() != []
      ensures blocked ==> k == |polls|
      ensures |old(Contents())| < size && (!blocked ==> k > 0)
      ensures forall i :: 0 <= i < k ==>
                (Polled(size, old(tail), old(Contents()), polls, i) > 0 <==> !blocked && i == k - 1)
      ensures size <= 0x100 && blocked && k > 0 ==> AfterPolls(old(Contents()), polls, k - 1, size - 1) == []
      ensures size <= 0x100 && k > 1 ==> AfterPolls(old(Contents()), polls, k - 2, size - 1) == []
    {
      ghost var q := Contents();
      var i: nat := 0;
      FullWhen();
      while i < |polls|
        invariant Valid() && i <= |polls| && tail == old(tail) && |q| < size
        invariant Contents() == AfterPolls(q, polls, i, size - 1)
        invariant forall j :: 0 <= j < i ==> Polled(size, tail, q, polls, j) == 0
        invariant size <= 0x100 && i > 0 ==> AfterPolls(q, polls, i - 1, size - 1) == []
        invariant size <= 0x100 && i > 1 ==> AfterPolls(q, polls, i - 2, size - 1) == []
      {
        var n;
        n, i := PollOnce(q, polls, i);
        if n > 0 {
          return false, i;
        }
      }
      return true, |polls|;
    }

    /** One look; `next` is the number of looks so far. */
    method PollOnce(ghost q: seq<byte>, polls: seq<seq<byte>>, i: nat) returns (n: nat, next: nat)
      requires Valid() && i < |polls| && |q| < size && Contents() == AfterPolls(q, polls, i, size - 1)
      modifies this`head, buf
      ensures Valid() && next == i + 1 && Contents() == AfterPolls(q, polls, next, size - 1)
      ensures n == Polled(size, tail, q, polls, i) && (n > 0 ==> Contents() != [])
      ensures size <= 0x100 ==> (n == 0 <==> AfterPolls(q, polls, i, size - 1) == [])
    {
      OnePoll(q, polls, i, size - 1);
      n := Available(polls[i], []);
      next := i + 1;
    }
  }
}
