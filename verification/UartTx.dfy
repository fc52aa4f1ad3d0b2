/**
  The transmit side of driver/servant64/uart.c: the main line fills a ring that the
  data-register-empty interrupt drains, and enables that interrupt after each byte.

  The interrupt may be served any number of times between any two accesses of the main
  line, as long as it is enabled.  Loads and stores of an index are atomic.
 */
module UartTx {
  import opened Bytes
  import opened Fifo

  class Transmitter {
    const size: nat
    const buf: array<byte>
    var head: nat
    var tail: nat
    var enabled: bool  // UDRIE

    ghost var put: seq<byte>   // everything uart0_putc has stored
    ghost var sent: seq<byte>  // everything the interrupt has written to the data register

    ghost predicate Indexed()
      reads this, buf
    {
      2 <= size == buf.Length && IsPowerOfTwo(size) && head < size && tail < size
    }

    ghost function Contents(): (q: seq<byte>)
      requires Indexed()
      reads this, buf
    {
      Slots(buf[..], Wrap(tail + 1, size), Wrap(size + head - tail, size))
    }

    /** Nothing is lost, made up or reordered. */
    ghost predicate Valid()
      reads this, buf
    {
      Indexed() && put == sent + Contents()
    }

    /** Nothing is stranded: while bytes wait, the interrupt that drains them is enabled. */
    ghost predicate Armed()
      requires Indexed()
      reads this, buf
    {
      Contents() != [] ==> enabled
    }

    constructor (size: nat)
      requires 2 <= size && IsPowerOfTwo(size)
      ensures Valid() && Armed() && put == [] && this.size == size && fresh(buf)
    {
      this.size := size;
      buf := new byte[size](_ => 0);
      head, tail, enabled := 0, 0, false;
      put, sent := [], [];
    }

    /** ISR(UART0_TRANSMIT_INTERRUPT), which the hardware calls only while it is enabled. */
    method Interrupt()
      requires Valid()
      modifies this`tail, this`enabled, this`sent
      ensures Valid()
      ensures !old(enabled) ==> unchanged(this)
      ensures old(enabled) && old(Contents()) == [] ==> !enabled && Contents() == [] && sent == old(sent)
      ensures old(enabled) && old(Contents()) != [] ==>
                enabled && sent == old(sent) + [old(Contents())[0]] && Contents() == old(Contents())[1..]
    {
      if enabled {
        if head != tail {
          var tmptail := Mask(tail + 1, size);
          StoreTail(tmptail);
        } else {
          enabled := false;
        }
      }
    }

    method StoreTail(tmptail: nat)
      requires Valid() && head != tail && tmptail == Wrap(tail + 1, size)
      modifies this`tail, this`sent
      ensures Valid() && old(Contents()) != []
      ensures sent == old(sent) + [old(Contents())[0]] && Contents() == old(Contents())[1..]
    {
      ghost var q := Contents();
      tail := tmptail;
      sent := sent + [buf[tmptail]];
      assert Contents() == q[1..];
    }

    method Interrupts(n: nat)
      requires Valid()
      modifies this`tail, this`enabled, this`sent
      ensures Valid() && old(sent) <= sent
      ensures |Contents()| <= old(|Contents()|) && (Wrap(head + 1, size) == tail ==> tail == old(tail))
      ensures n == 0 ==> unchanged(this)
      ensures old(Armed()) ==> Armed()
      ensures n > 0 && old(enabled) && old(Contents()) != [] ==> |Contents()| < old(|Contents()|)
    {
      for i := 0 to n
        invariant Valid() && old(sent) <= sent && |Contents()| <= old(|Contents()|)
        invariant |Contents()| == old(|Contents()|) ==> tail == old(tail)
        invariant i == 0 ==> unchanged(this)
        invariant old(Armed()) ==> Armed()
        invariant i > 0 && old(enabled) && old(Contents()) != [] ==> |Contents()| < old(|Contents()|)
      {
        Interrupt();
      }
      FullWhen();
    }

    lemma FullWhen()
      requires Indexed()
      ensures Wrap(head + 1, size) == tail <==> |Contents()| == size - 1
      ensures |Contents()| <= size - 1
    {
    }

    /** The wait loop of uart0_putc; `polls` counts the interrupts before each further look. */
    method AwaitSpace(tmphead: nat, polls: seq<nat>) returns (free: bool)
      requires Valid() && Armed() && tmphead == Wrap(head + 1, size)
      modifies this`tail, this`enabled, this`sent
      ensures Valid() && Armed() && old(sent) <= sent
      ensures free <==> tmphead != tail
      ensures !free ==> old(tail) == tail && forall k :: 0 <= k < |polls| ==> polls[k] == 0
      ensures old(|Contents()|) < size - 1 ==> free
    {
      var k := 0;
      FullWhen();
      while tmphead == tail && k < |polls|
        invariant Valid() && Armed() && k <= |polls| && old(sent) <= sent
        invariant |Contents()| <= old(|Contents()|)
        invariant tmphead == tail ==> tail == old(tail) && forall i :: 0 <= i < k ==> polls[i] == 0
      {
        FullWhen();
        Interrupts(polls[k]);
        FullWhen();
        k := k + 1;
      }
      FullWhen();
      return tmphead != tail;
    }

    /**
      uart0_putc.  `gaps` counts the interrupts between its stores.  The call is stuck only
      for want of an interrupt: one is enough to let it go on.
     */
    method Putc(data: byte, polls: seq<nat>, gaps: (nat, nat)) returns (done: bool)
      requires Valid() && Armed()
      modifies this, buf
      ensures Valid() && Armed() && old(sent) <= sent
      ensures put == old(put) + if done then [data] else []
      ensures !done ==> forall k :: 0 <= k < |polls| ==> polls[k] == 0
      ensures old(|Contents()|) < size - 1 ==> done
    {
      var tmphead := Mask(head + 1, size);
      done := AwaitSpace(tmphead, polls);
      if done {
        StoreBoth(tmphead, data, gaps);
      }
    }

    /** Behind the wait: the byte, the index, and the interrupt switched on. */
    method StoreBoth(tmphead: nat, data: byte, gaps: (nat, nat))
      requires Valid() && Armed() && tmphead == Wrap(head + 1, size) && tmphead != tail
      modifies this, buf
      ensures Valid() && Armed() && old(sent) <= sent && put == old(put) + [data]
    {
      StoreData(tmphead, data);
      Interrupts(gaps.0);
      assert tmphead != tail && buf[tmphead] == data;
      StoreHead(tmphead);
      Interrupts(gaps.1);
      Enable();
    }

    method Enable()
      requires Valid()
      modifies this`enabled
      ensures Valid() && Armed()
    {
      enabled := true;
    }

    method StoreData(tmphead: nat, data: byte)
      requires Valid() && tmphead == Wrap(head + 1, size) && tmphead != tail
      modifies buf
      ensures Valid() && Contents() == old(Contents()) && buf[tmphead] == data
    {
      buf[tmphead] := data;
    }

    method StoreHead(tmphead: nat)
      requires Valid() && tmphead == Wrap(head + 1, size) && tmphead != tail
      modifies this`head, this`put
      ensures Valid() && put == old(put) + [buf[tmphead]] && tail == old(tail)
    {
      ghost var q := Contents();
      head := tmphead;
      put := put + [buf[tmphead]];
      assert Contents() == q + [buf[tmphead]];
    }
  }
}
