/**
  The USB transport the other way: driver/at90usb162/xlink.c collects the bytes of the port in
  packets, driver/usb.c fetches them chunk by chunk.  The reference is again the plain byte loop
  of driver/parport.c.

  `offer(k)` is what the server puts on the lines as byte `k`; `acks(k)` says whether it does so
  in time.  `strobes` counts the strobes made, which are what tells the server to go on.
 */
module UsbReceive {
  import opened Bytes
  import opened UsbPath

  type Offer = nat -> byte

  function Offered(offer: Offer, from: nat, n: nat): (s: seq<byte>)
    ensures |s| == n
    ensures forall i :: 0 <= i < n ==> s[i] == offer(from + i)
  {
    seq(n, i requires 0 <= i < n => offer(from + i))
  }

  lemma OfferedConcat(offer: Offer, from: nat, a: nat, b: nat)
    ensures Offered(offer, from, a) + Offered(offer, from + a, b) == Offered(offer, from, a + b)
  {
  }

  /** The first bytes of a buffer replaced by what was received. */
  function Filled(buffer: seq<byte>, offer: Offer, n: nat): (s: seq<byte>)
    requires n <= |buffer|
    ensures |s| == |buffer|
    ensures forall i :: 0 <= i < |s| ==> s[i] == if i < n then offer(i) else buffer[i]
  {
    Offered(offer, 0, n) + buffer[n..]
  }

  lemma FilledMore(buffer: seq<byte>, offer: Offer, at: nat, k: nat)
    requires at + k <= |buffer|
    ensures var s := Filled(buffer, offer, at);
            s[..at] + Offered(offer, at, k) + s[at + k..] == Filled(buffer, offer, at + k)
  {
  }

  lemma FilledNext(buffer: seq<byte>, offer: Offer, n: nat)
    requires n < |buffer|
    ensures Filled(buffer, offer, n)[n := offer(n)] == Filled(buffer, offer, n + 1)
  {
  }

  // ---- driver/parport.c ------------------------------------------------------------------------

  class PlainPort {
    var strobes: nat

    constructor ()
      ensures strobes == 0
    {
      strobes := 0;
    }

    /** driver_parport_receive; `received` is the count of its error message. */
    method Receive(data: array<byte>, size: nat, offer: Offer, acks: Acks) returns (result: bool, received: nat)
      requires size <= data.Length
      modifies this, data
      ensures received == Acked(acks, 0, size) && strobes == old(strobes) + received
      ensures data[..] == Filled(old(data[..]), offer, received)
      ensures result <==> size > 0 && received == size
    {
      result, received := false, 0;
      while received < size
        invariant received <= size && strobes == old(strobes) + received
        invariant data[..] == Filled(old(data[..]), offer, received)
        invariant AllAcked(acks, 0, received)
        invariant result <==> received > 0
      {
        result := acks(received);
        if !result {
          break;
        }
        FilledNext(old(data[..]), offer, received);
        ghost var before := data[..];
        data[received] := offer(received);
        assert data[..] == before[received := offer(received)];
        strobes := strobes + 1;
        received := received + 1;
      }
      AckedIs(acks, 0, size, received);
    }
  }

  // ---- driver/at90usb162/xlink.c -----------------------------------------------------------------

  /** How many of `n` bytes the adapter passes on. */
  function Passed(acks: Acks, base: nat, n: nat, bus: Bus): (k: nat)
    ensures k <= n
  {
    var a := Acked(acks, base, n);
    if a < Carried(n, bus) then a else Carried(n, bus)
  }

  /** In numbers: when `d` packets of 64 come through, all they hold up to the first late byte. */
  lemma PassedInNumbers(acks: Acks, base: nat, n: nat, bus: Bus)
    ensures var come := if bus.delivered * 64 < n then bus.delivered * 64 else n;
            var k := Passed(acks, base, n, bus);
            k <= come && AllAcked(acks, base, k) && (k < come ==> !acks(base + k))
  {
    var come := Carried(n, bus);
    var a := Acked(acks, base, come);
    if a < come {
      AckedIs(acks, base, n, a);
    } else {
      AckedAtLeast(acks, base, n, come);
    }
  }

  /** `k` bytes passed on, and why not more. */
  lemma PassedIs(acks: Acks, base: nat, n: nat, bus: Bus, packets: nat, k: nat)
    requires packets <= bus.delivered && k <= n && k <= packets * PACKET && AllAcked(acks, base, k)
    ensures k == n ==> Passed(acks, base, n, bus) == k && Ends(acks, base, n, bus) == Complete
    ensures k < n && k == bus.delivered * PACKET ==>
              Passed(acks, base, n, bus) == k && Ends(acks, base, n, bus) == BusError
    ensures k < n && k < packets * PACKET && !acks(base + k) ==>
              Passed(acks, base, n, bus) == k && Ends(acks, base, n, bus) == TimedOut
  {
    if k == n || !acks(base + k) {
      AckedIs(acks, base, n, k);
    } else {
      AckedAtLeast(acks, base, n, k);
    }
  }

  class Collector {
    var strobes: nat

    constructor ()
      ensures strobes == 0
    {
      strobes := 0;
    }

    /** The inner loop of `Receive`: one packet, sent on incomplete when a byte does not come. */
    method Packet(n: nat, offer: Offer, acks: Acks, from: nat) returns (packet: seq<byte>)
      modifies this
      ensures |packet| <= n && packet == Offered(offer, from, |packet|)
      ensures AllAcked(acks, from, |packet|) && (|packet| < n ==> !acks(from + |packet|))
      ensures strobes == old(strobes) + |packet|
    {
      packet := [];
      for i := 0 to n
        invariant packet == Offered(offer, from, i) && AllAcked(acks, from, i)
        invariant strobes == old(strobes) + i
      {
        if !acks(from + i) {
          return;
        }
        packet := packet + [offer(from + i)];
        strobes := strobes + 1;
      }
    }

    /** The vendor request CMD_RECEIVE; `bytes` is what its packets carry to the host. */
    method Receive(n: nat, offer: Offer, acks: Acks, base: nat, bus: Bus) returns (bytes: seq<byte>, outcome: Outcome)
      modifies this
      ensures |bytes| == Passed(acks, base, n, bus) && bytes == Offered(offer, base, |bytes|)
      ensures strobes == old(strobes) + |bytes|
      ensures outcome == Ends(acks, base, n, bus)
    {
      var bytesToReceive: nat := n;
      var packets := 0;
      bytes := [];
      while bytesToReceive > 0
        invariant packets <= bus.delivered && bytesToReceive <= n && |bytes| == n - bytesToReceive
        invariant bytesToReceive > 0 ==> |bytes| == packets * PACKET
        invariant |bytes| <= packets * PACKET
        invariant bytes == Offered(offer, base, |bytes|) && AllAcked(acks, base, |bytes|)
        invariant strobes == old(strobes) + |bytes|
      {
        if packets == bus.delivered {
          PassedIs(acks, base, n, bus, packets, |bytes|);
          return bytes, BusError;
        }
        var bytesInPacket := if bytesToReceive >= PACKET then PACKET else bytesToReceive;
        var packet := Packet(bytesInPacket, offer, acks, base + |bytes|);
        OfferedConcat(offer, base, |bytes|, |packet|);
        bytes := bytes + packet;
        if |packet| < bytesInPacket {
          PassedIs(acks, base, n, bus, packets + 1, |bytes|);
          return bytes, TimedOut;
        }
        bytesToReceive := bytesToReceive - bytesInPacket;
        packets := packets + 1;
      }
      PassedIs(acks, base, n, bus, packets, n);
      return bytes, Complete;
    }
  }

  // ---- driver/usb.c and util.c ---------------------------------------------------------------------

  method Store(data: array<byte>, at: nat, bytes: seq<byte>)
    requires at + |bytes| <= data.Length
    modifies data
    ensures data[..] == old(data[..])[..at] + bytes + old(data[..])[at + |bytes|..]
  {
    forall i | 0 <= i < |bytes| {
      data[at + i] := bytes[i];
    }
  }

  /** The control transfer of one chunk into the buffer at `at`. */
  method ControlIn(collector: Collector, data: array<byte>, at: nat, chunk: nat, offer: Offer, acks: Acks, bus: Bus,
                   ghost before: seq<byte>) returns (transferred: int, ghost got: nat)
    requires at + chunk <= data.Length == |before| && AllAcked(acks, 0, at)
    requires data[..] == Filled(before, offer, at)
    modifies collector, data
    ensures at <= got <= at + chunk && data[..] == Filled(before, offer, got)
    ensures collector.strobes == old(collector.strobes) + (got - at)
    ensures got - at == Passed(acks, at, chunk, bus)
    ensures match Ends(acks, at, chunk, bus)
            case Complete => transferred == chunk == got - at
            case TimedOut => transferred == got - at < chunk
            case BusError => transferred < chunk
  {
    var bytes, outcome := collector.Receive(chunk, offer, acks, at, bus);
    got := at + |bytes|;
    Store(data, at, bytes);
    FilledMore(before, offer, at, |bytes|);
    transferred := match outcome
      case Complete => |bytes|
      case TimedOut => |bytes|
      case BusError => if bus.reported < chunk then bus.reported else -1;
  }

  class Transfer {
    var at: nat  // `data`, as an offset
    var completed: nat

    constructor ()
      ensures at == 0 && completed == 0
    {
      at, completed := 0, 0;
    }

    /** receive_chunk. */
    method ReceiveChunk(collector: Collector, data: array<byte>, chunk: nat, offer: Offer, acks: Acks, bus: Bus,
                        ghost before: seq<byte>) returns (more: bool, ghost got: nat)
      requires at + chunk <= data.Length == |before| && AllAcked(acks, 0, at) && completed == at
      requires data[..] == Filled(before, offer, at)
      modifies this, collector, data
      ensures old(at) <= got <= old(at) + chunk && data[..] == Filled(before, offer, got)
      ensures collector.strobes == old(collector.strobes) + (got - old(at))
      ensures got - old(at) == Passed(acks, old(at), chunk, bus)
      ensures more <==> Ends(acks, old(at), chunk, bus) == Complete
      ensures more ==> at == completed == got == old(at) + chunk
      ensures !more ==> completed < old(at) + chunk
      ensures Ends(acks, old(at), chunk, bus) == TimedOut ==> completed == got
    {
      var transferred;
      transferred, got := ControlIn(collector, data, at, chunk, offer, acks, bus, before);
      if transferred < 0 {
        return false, got;
      }
      if transferred < chunk {
        completed := completed + transferred;
        return false, got;
      }
      at := at + chunk;
      completed := completed + chunk;
      return true, got;
    }
  }

  /** A chunk behind `at` received bytes, seen from the whole transfer. */
  lemma ChunkPasses(total: nat, at: nat, chunk: nat, acks: Acks, bus: Bus)
    requires at + chunk <= total && AllAcked(acks, 0, at)
    ensures var k := Passed(acks, at, chunk, bus);
            && at + k <= Acked(acks, 0, total) && AllAcked(acks, 0, at + k)
            && (Ends(acks, at, chunk, bus) == TimedOut ==> at + k == Acked(acks, 0, total) < total)
            && (Ends(acks, at, chunk, bus) == Complete <==> k == chunk)
  {
    AckedBehind(acks, 0, at, chunk, total);
    AckedAtLeast(acks, 0, total, at);
  }

  /**
    driver_usb_receive: `chunked` around `receive_chunk`.  The buffer is filled with a prefix of
    what driver_parport_receive would store, and as many strobes are made; over a lossless bus it
    is all of that, and both agree on the count.  Over any bus the result is true exactly if all
    that was expected is in the buffer.
   */
  method Receive(collector: Collector, data: array<byte>, expected: nat, offer: Offer, acks: Acks, bus: nat -> Bus)
      returns (result: bool, completed: int, ghost got: nat)
    requires expected <= data.Length
    modifies collector, data
    ensures got <= Acked(acks, 0, expected) && data[..] == Filled(old(data[..]), offer, got)
    ensures collector.strobes == old(collector.strobes) + got
    ensures result <==> completed == expected
    ensures result <==> got == expected
    ensures Delivers(bus) ==> got == completed == Acked(acks, 0, expected)
  {
    ghost var before := data[..];
    var transfer := new Transfer();
    var size: nat, chunk: nat, c := expected, MAX_PAYLOAD_SIZE, 0;
    var more, ok := true, true;
    got := 0;
    while more
      invariant fresh(transfer) && got <= Acked(acks, 0, expected) && data[..] == Filled(before, offer, got)
      invariant more ==> ok && chunk == MAX_PAYLOAD_SIZE && transfer.at + size == expected
      invariant ok ==> got == transfer.at == transfer.completed && AllAcked(acks, 0, got)
      invariant ok && !more ==> got == expected
      invariant !ok ==> transfer.completed < expected && got < expected
      invariant !ok && Delivers(bus) ==> got == transfer.completed == Acked(acks, 0, expected)
      invariant collector.strobes == old(collector.strobes) + got
      decreases more, size
    {
      if size > chunk {
        size := size - chunk;
      } else {
        chunk := size;
        size := 0;
      }
      ChunkPasses(expected, transfer.at, chunk, acks, bus(c));
      ok, got := transfer.ReceiveChunk(collector, data, chunk, offer, acks, bus(c), before);
      c := c + 1;
      more := ok && size > 0;
    }
    AckedAtLeast(acks, 0, expected, if ok then expected else 0);
    completed := transfer.completed;
    result := completed == expected;
  }
}
