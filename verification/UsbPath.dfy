/**
  The USB transport: driver/usb.c cuts a transfer into chunks (util.c), the USB stack cuts a
  chunk into packets, and driver/at90usb162/xlink.c puts the packets on the port byte by byte.
  The reference is the plain byte loop of driver/parport.c.

  `acks(k)` says whether byte `k` is acknowledged in time; `bus(c)` says how many packets of
  chunk `c` get through and what length the host reports, which is at most what it got rid of.
 */
module UsbPath {
  import opened Bytes

  const MAX_PAYLOAD_SIZE := 4096
  const PACKET := 64  // FIXED_CONTROL_ENDPOINT_SIZE

  datatype Event = Write(value: byte) | Strobe

  type Acks = nat -> bool

  datatype Bus = Bus(delivered: nat, reported: int)

  /** What sending these bytes does to the port. */
  function Trace(data: seq<byte>): (events: seq<Event>)
    ensures |events| == 2 * |data|
  {
    if data == [] then [] else Trace(data[..|data| - 1]) + [Write(data[|data| - 1]), Strobe]
  }

  /** Each byte is written and then strobed. */
  lemma {:induction false} TraceAlternates(data: seq<byte>, k: nat)
    requires k < |data|
    ensures Trace(data)[2 * k] == Write(data[k]) && Trace(data)[2 * k + 1] == Strobe
  {
    if k < |data| - 1 {
      TraceAlternates(data[..|data| - 1], k);
    }
  }

  lemma {:induction false} TraceConcat(a: seq<byte>, b: seq<byte>)
    ensures Trace(a + b) == Trace(a) + Trace(b)
  {
    if b == [] {
      assert a + b == a;
    } else {
      assert (a + b)[..|a + b| - 1] == a + b[..|b| - 1];
      TraceConcat(a, b[..|b| - 1]);
    }
  }

  lemma TraceMore(before: seq<Event>, was: seq<Event>, now: seq<Event>, sent: seq<byte>, piece: seq<byte>)
    requires was == before + Trace(sent) && now == was + Trace(piece)
    ensures now == before + Trace(sent + piece)
  {
    TraceConcat(sent, piece);
  }

  /** How many of `n` bytes are acknowledged before the first that is not. */
  function Acked(acks: Acks, from: nat, n: nat): (k: nat)
    ensures k <= n
    ensures AllAcked(acks, from, k)
    ensures k < n ==> !acks(from + k)
    decreases n
  {
    if n == 0 || !acks(from) then 0 else 1 + Acked(acks, from + 1, n - 1)
  }

  predicate AllAcked(acks: Acks, from: nat, n: nat) {
    forall i :: from <= i < from + n ==> acks(i)
  }

  lemma {:induction false} AckedIs(acks: Acks, from: nat, n: nat, k: nat)
    requires k <= n && AllAcked(acks, from, k) && (k < n ==> !acks(from + k))
    ensures Acked(acks, from, n) == k
    decreases n
  {
    if k > 0 {
      AckedIs(acks, from + 1, n - 1, k - 1);
    }
  }

  lemma {:induction false} AckedAtLeast(acks: Acks, from: nat, n: nat, k: nat)
    requires k <= n && AllAcked(acks, from, k)
    ensures Acked(acks, from, n) == k + Acked(acks, from + k, n - k)
    decreases n
  {
    if k > 0 {
      AckedAtLeast(acks, from + 1, n - 1, k - 1);
    }
  }

  /** The bytes that reach the port: the acknowledged ones, and the one that is not. */
  function Reached(acks: Acks, from: nat, n: nat): (k: nat)
    ensures k <= n
  {
    var k := Acked(acks, from, n);
    if k < n then k + 1 else n
  }

  /** All of them, unless one is late: then that one is the last. */
  lemma ReachedIs(acks: Acks, from: nat, n: nat)
    ensures var k := Reached(acks, from, n);
            && (AllAcked(acks, from, n) ==> k == n)
            && (!AllAcked(acks, from, n) ==> 0 < k && !acks(from + k - 1) && AllAcked(acks, from, k - 1))
  {
    AckedIs(acks, from, n, Acked(acks, from, n));
  }

  // ---- driver/parport.c ------------------------------------------------------------------------

  class Parport {
    var log: seq<Event>

    constructor ()
      ensures log == []
    {
      log := [];
    }

    /** driver_parport_send; `sent` is the count of its error message. */
    method Send(data: seq<byte>, acks: Acks) returns (result: bool, sent: nat)
      modifies this
      ensures log == old(log) + Trace(data[..Reached(acks, 0, |data|)])
      ensures sent == Acked(acks, 0, |data|)
      ensures result <==> data != [] && sent == |data|
    {
      result, sent := false, 0;
      assert data[..0] == [];
      while sent < |data|
        invariant sent <= |data|
        invariant log == old(log) + Trace(data[..sent])
        invariant AllAcked(acks, 0, sent)
        invariant result <==> sent > 0
      {
        log := log + [Write(data[sent])];
        log := log + [Strobe];
        assert data[..sent + 1][..sent] == data[..sent];
        result := acks(sent);
        if !result {
          break;
        }
        sent := sent + 1;
      }
      AckedIs(acks, 0, |data|, sent);
    }
  }

  // ---- driver/at90usb162/xlink.c -----------------------------------------------------------------

  datatype Outcome = Complete | TimedOut | BusError

  /** Bytes that the delivered packets hold. */
  function Carried(n: nat, bus: Bus): nat {
    if bus.delivered * PACKET < n then bus.delivered * PACKET else n
  }

  /** Bytes that go on the port. */
  function Put(acks: Acks, base: nat, n: nat, bus: Bus): (k: nat)
    ensures k <= n
  {
    var a := Acked(acks, base, n);
    if a < Carried(n, bus) then a + 1 else Carried(n, bus)
  }

  function Ends(acks: Acks, base: nat, n: nat, bus: Bus): Outcome {
    if Acked(acks, base, n) < Carried(n, bus) then TimedOut
    else if Carried(n, bus) < n then BusError
    else Complete
  }

  /** `k` acknowledged bytes, and why not more. */
  lemma PutIs(acks: Acks, base: nat, n: nat, bus: Bus, packets: nat, k: nat)
    requires packets <= bus.delivered && k <= n && k <= packets * PACKET && AllAcked(acks, base, k)
    ensures k == n ==> Put(acks, base, n, bus) == n && Ends(acks, base, n, bus) == Complete
    ensures k < n && k == bus.delivered * PACKET ==>
              Put(acks, base, n, bus) == k && Ends(acks, base, n, bus) == BusError
    ensures k == n || k == bus.delivered * PACKET ==> HandedOver(acks, base, n, bus) == k
  {
    AckedAtLeast(acks, base, n, k);
  }

  /**
    The control endpoint has one bank.  The host gets rid of a packet only when the bank is free,
    and the firmware frees it when it has dealt with the packet.
   */
  class Endpoint {
    var full: bool
    var bank: seq<byte>
    var taken: nat  // bytes the host has got rid of

    constructor ()
      ensures !full && taken == 0
    {
      full, bank, taken := false, [], 0;
    }

    /** Endpoint_ClearSETUP: a request begins with a free bank. */
    method ClearSetup()
      modifies this
      ensures !full && taken == 0
    {
      full, taken := false, 0;
    }

    /** The host offers a packet; while the bank is full the hardware refuses it. */
    method HandOver(packet: seq<byte>) returns (ok: bool)
      modifies this
      ensures ok <==> !old(full)
      ensures ok ==> full && bank == packet && taken == old(taken) + |packet|
      ensures !ok ==> unchanged(this)
    {
      ok := !full;
      if ok {
        full, bank, taken := true, packet, taken + |packet|;
      }
    }

    /** Endpoint_ClearOUT */
    method ClearOut()
      modifies this`full
      ensures !full
    {
      full := false;
    }
  }

  /** The packet that begins at `from`. */
  function PacketAt(payload: seq<byte>, from: nat): (packet: seq<byte>)
    requires from < |payload|
    ensures 0 < |packet| <= PACKET && from + |packet| <= |payload|
    ensures packet == payload[from..from + |packet|]
    ensures |packet| < PACKET ==> from + |packet| == |payload|
  {
    payload[from..if |payload| - from < PACKET then |payload| else from + PACKET]
  }

  /**
    What the host gets rid of: all that is delivered, but after a time-out nothing behind the
    packet that the late byte came in.
   */
  function HandedOver(acks: Acks, base: nat, n: nat, bus: Bus): (k: nat)
    ensures k <= n
  {
    var a := Acked(acks, base, n);
    if a < Carried(n, bus) then PacketEnd(a, n) else Carried(n, bus)
  }

  /** Where the packet of byte `a` ends. */
  function PacketEnd(a: nat, n: nat): (k: nat)
    ensures k <= n
    decreases n
  {
    if n <= PACKET then n else if a < PACKET then PACKET else PACKET + PacketEnd(a - PACKET, n - PACKET)
  }

  lemma {:induction false} PacketEndIs(a: nat, n: nat, packet: nat, from: nat, k: nat)
    requires from == packet * PACKET && from <= a < from + k && k <= PACKET && from + k <= n
    requires k < PACKET ==> from + k == n
    ensures PacketEnd(a, n) == from + k
  {
    if packet > 0 {
      PacketEndIs(a - PACKET, n - PACKET, packet - 1, from - PACKET, k);
    }
  }

  class Adapter {
    var log: seq<Event>

    constructor ()
      ensures log == []
    {
      log := [];
    }

    /** The inner loop of `Send`: the packet in the bank, up to the first byte that is not acknowledged. */
    method Packet(bank: seq<byte>, acks: Acks, base: nat) returns (ok: bool)
      modifies this
      ensures log == old(log) + Trace(bank[..Reached(acks, base, |bank|)])
      ensures ok <==> Acked(acks, base, |bank|) == |bank|
    {
      assert bank[..0] == [];
      for i := 0 to |bank|
        invariant log == old(log) + Trace(bank[..i]) && AllAcked(acks, base, i)
      {
        log := log + [Write(bank[i])];
        log := log + [Strobe];
        assert bank[..i + 1][..i] == bank[..i];
        if !acks(base + i) {
          AckedIs(acks, base, |bank|, i);
          return false;
        }
      }
      AckedIs(acks, base, |bank|, |bank|);
      return true;
    }

    /** One packet comes into the bank, and leaves it when all of it is acknowledged. */
    method TakePacket(endpoint: Endpoint, packet: seq<byte>, acks: Acks, base: nat)
        returns (ok: bool, ghost put: seq<byte>)
      requires !endpoint.full
      modifies this, endpoint
      ensures log == old(log) + Trace(put) && put == packet[..Reached(acks, base, |packet|)]
      ensures ok <==> Acked(acks, base, |packet|) == |packet|
      ensures endpoint.full <==> !ok
      ensures endpoint.taken == old(endpoint.taken) + |packet|
    {
      var received := endpoint.HandOver(packet);
      ok := Packet(endpoint.bank, acks, base);
      put := packet[..Reached(acks, base, |packet|)];
      if ok {
        endpoint.ClearOut();
      }
    }

    /** A round of the loop of `Send`: the packet behind `sent` bytes. */
    method Round(ghost before: seq<Event>, ghost seen: seq<byte>, endpoint: Endpoint, payload: seq<byte>, sent: nat,
                 ghost packet: nat, acks: Acks, base: nat, ghost bus: Bus)
        returns (ok: bool, bytesInPacket: nat, ghost now: seq<byte>)
      requires log == before + Trace(seen) && Sending(seen, payload, sent, packet, acks, base, bus)
      requires sent < |payload| && packet < bus.delivered && !endpoint.full && endpoint.taken == sent
      modifies this, endpoint
      ensures log == before + Trace(now) && (endpoint.full <==> !ok)
      ensures 0 < bytesInPacket && endpoint.taken == sent + bytesInPacket
      ensures ok ==> Sending(now, payload, sent + bytesInPacket, packet + 1, acks, base, bus)
      ensures !ok ==> Stopped(now, payload, acks, base, bus, TimedOut, endpoint.taken)
    {
      var received := PacketAt(payload, sent);
      ghost var was, put := log, [];
      bytesInPacket := |received|;
      ok, put := TakePacket(endpoint, received, acks, base + sent);
      now := seen + put;
      TraceMore(before, was, log, seen, put);
      PacketSeen(seen, put, payload, sent, packet, received, acks, base, bus);
    }

    /**
      The vendor request CMD_SEND: packets of at most 64 bytes, each byte written and strobed.
      After a time-out the last packet stays in the bank.
     */
    method Send(endpoint: Endpoint, payload: seq<byte>, acks: Acks, base: nat, bus: Bus) returns (outcome: Outcome)
      modifies this, endpoint
      ensures log == old(log) + Trace(payload[..Put(acks, base, |payload|, bus)])
      ensures outcome == Ends(acks, base, |payload|, bus)
      ensures endpoint.full <==> outcome == TimedOut
      ensures endpoint.taken == HandedOver(acks, base, |payload|, bus)
    {
      endpoint.ClearSetup();
      var sent, packet := 0, 0;
      ghost var seen: seq<byte> := [];
      while sent < |payload|
        invariant log == old(log) + Trace(seen) && Sending(seen, payload, sent, packet, acks, base, bus)
        invariant !endpoint.full && endpoint.taken == sent
      {
        if packet == bus.delivered {
          NothingMore(seen, payload, sent, packet, acks, base, bus);
          return BusError;
        }
        var ok, bytesInPacket;
        ok, bytesInPacket, seen := Round(old(log), seen, endpoint, payload, sent, packet, acks, base, bus);
        if !ok {
          return TimedOut;
        }
        sent, packet := sent + bytesInPacket, packet + 1;
      }
      NothingMore(seen, payload, sent, packet, acks, base, bus);
      return Complete;
    }
  }

  /** `sent` bytes in `packet` packets have come, and all of them are on the port and acknowledged. */
  ghost predicate Sending(seen: seq<byte>, payload: seq<byte>, sent: nat, packet: nat, acks: Acks, base: nat,
                          bus: Bus) {
    && sent <= |payload| && seen == payload[..sent] && AllAcked(acks, base, sent)
    && packet <= bus.delivered && sent <= packet * PACKET && (sent < |payload| ==> sent == packet * PACKET)
  }

  /** The request ends with `outcome`, when the host has got rid of `taken` bytes. */
  ghost predicate Stopped(seen: seq<byte>, payload: seq<byte>, acks: Acks, base: nat, bus: Bus, outcome: Outcome,
                          taken: nat) {
    && seen == payload[..Put(acks, base, |payload|, bus)]
    && outcome == Ends(acks, base, |payload|, bus)
    && taken == HandedOver(acks, base, |payload|, bus)
  }

  lemma NothingMore(seen: seq<byte>, payload: seq<byte>, sent: nat, packet: nat, acks: Acks, base: nat, bus: Bus)
    requires Sending(seen, payload, sent, packet, acks, base, bus)
    requires sent == |payload| || packet == bus.delivered
    ensures Stopped(seen, payload, acks, base, bus, if sent == |payload| then Complete else BusError, sent)
  {
    PutIs(acks, base, |payload|, bus, packet, sent);
  }

  /** What one more packet comes to: the whole of it, or a time-out in the middle. */
  lemma OnePacket(seen: seq<byte>, now: seq<byte>, payload: seq<byte>, sent: nat, packet: nat, k: nat,
                  acks: Acks, base: nat, bus: Bus)
    requires Sending(seen, payload, sent, packet, acks, base, bus)
    requires sent < sent + k <= |payload| && packet < bus.delivered && k <= PACKET
    requires k < PACKET ==> sent + k == |payload|
    requires now == payload[..sent + Reached(acks, base + sent, k)]
    ensures if Acked(acks, base + sent, k) == k
            then Sending(now, payload, sent + k, packet + 1, acks, base, bus)
            else Stopped(now, payload, acks, base, bus, TimedOut, sent + k)
  {
    LateIs(acks, base, |payload|, bus, packet, sent, k);
  }

  lemma PacketSeen(seen: seq<byte>, put: seq<byte>, payload: seq<byte>, sent: nat, packet: nat, received: seq<byte>,
                   acks: Acks, base: nat, bus: Bus)
    requires Sending(seen, payload, sent, packet, acks, base, bus) && sent < |payload| && packet < bus.delivered
    requires received == PacketAt(payload, sent) && put == received[..Reached(acks, base + sent, |received|)]
    ensures if Acked(acks, base + sent, |received|) == |received|
            then Sending(seen + put, payload, sent + |received|, packet + 1, acks, base, bus)
            else Stopped(seen + put, payload, acks, base, bus, TimedOut, sent + |received|)
  {
    SliceBehind(payload, sent, received, Reached(acks, base + sent, |received|));
    OnePacket(seen, seen + put, payload, sent, packet, |received|, acks, base, bus);
  }

  lemma SliceBehind(payload: seq<byte>, sent: nat, received: seq<byte>, k: nat)
    requires sent < |payload| && received == PacketAt(payload, sent) && k <= |received|
    ensures payload[..sent] + received[..k] == payload[..sent + k]
  {
  }

  /** The `k` bytes of the packet behind `packet` others are all acknowledged, or one of them is the first late one. */
  lemma LateIs(acks: Acks, base: nat, n: nat, bus: Bus, packet: nat, from: nat, k: nat)
    requires packet < bus.delivered && from == packet * PACKET && from + k <= n && k <= PACKET
    requires k < PACKET ==> from + k == n
    requires AllAcked(acks, base, from)
    ensures var a := Acked(acks, base + from, k);
            if a == k then AllAcked(acks, base, from + k)
            else
              && Put(acks, base, n, bus) == from + a + 1 && Ends(acks, base, n, bus) == TimedOut
              && HandedOver(acks, base, n, bus) == from + k
  {
    var a := Acked(acks, base + from, k);
    AckedBehind(acks, base, from, k, n);
    if a < k {
      LateIn(acks, base, n, bus, packet, from, k, from + a);
    }
  }

  lemma LateIn(acks: Acks, base: nat, n: nat, bus: Bus, packet: nat, from: nat, k: nat, a: nat)
    requires packet < bus.delivered && from == packet * PACKET && from + k <= n && k <= PACKET
    requires k < PACKET ==> from + k == n
    requires from <= a < from + k && Acked(acks, base, n) == a
    ensures Put(acks, base, n, bus) == a + 1 && Ends(acks, base, n, bus) == TimedOut
    ensures HandedOver(acks, base, n, bus) == from + k
  {
    PacketEndIs(a, n, packet, from, k);
    assert (packet + 1) * PACKET <= bus.delivered * PACKET;
  }

  /** What the host still gets rid of behind the request: it goes on while its packets are taken. */
  method HandOverRest(endpoint: Endpoint, payload: seq<byte>, bus: Bus)
    requires endpoint.taken <= |payload|
    modifies endpoint
    ensures old(endpoint.full) || old(endpoint.taken) >= Carried(|payload|, bus) ==>
              endpoint.taken == old(endpoint.taken)
  {
    while endpoint.taken < Carried(|payload|, bus)
      invariant endpoint.taken <= |payload|
      invariant old(endpoint.full) ==> endpoint.full && endpoint.taken == old(endpoint.taken)
      invariant old(endpoint.taken) >= Carried(|payload|, bus) ==> endpoint.taken == old(endpoint.taken)
      decreases Carried(|payload|, bus) - endpoint.taken
    {
      var ok := endpoint.HandOver(PacketAt(payload, endpoint.taken));
      if !ok {
        break;
      }
    }
  }

  lemma SliceOfSlice(data: seq<byte>, at: nat, n: nat, k: nat)
    requires at + n <= |data| && k <= n
    ensures data[at..at + n][..k] == data[at..at + k]
  {
  }

  /** `n` bytes behind `from` acknowledged ones, seen from the whole transfer. */
  lemma AckedBehind(acks: Acks, base: nat, from: nat, n: nat, total: nat)
    requires from + n <= total && AllAcked(acks, base, from)
    ensures var a := Acked(acks, base + from, n);
            if a < n then Acked(acks, base, total) == from + a
            else Acked(acks, base, total) >= from + n && AllAcked(acks, base, from + n)
  {
    var a := Acked(acks, base + from, n);
    if a < n {
      AckedIs(acks, base, total, from + a);
    } else {
      AckedAtLeast(acks, base, total, from + n);
    }
  }

  // ---- driver/usb.c and util.c -------------------------------------------------------------------

  /**
    `libusb_control_transfer`: some count up to what the host got rid of, or an error.  The
    firmware ends a request that timed out as if all were well, so nothing else tells the host.
   */
  function Transferred(handed: nat, bus: Bus): (r: int)
    ensures r <= handed
  {
    if bus.reported < handed then bus.reported else handed
  }

  /** `chunked` takes this much at a time. */
  function ChunkSize(left: nat): (n: nat)
    ensures n <= left && (n == 0 <==> left == 0)
  {
    if left > MAX_PAYLOAD_SIZE then MAX_PAYLOAD_SIZE else left
  }

  /** What becomes of a chunk: bytes put on the port, the host's count, and whether all were acknowledged. */
  datatype Chunk = Chunk(put: nat, counted: int, complete: bool)

  /** One entry for each chunk. */
  type Plan = nat -> Chunk

  function PlanOf(total: nat, acks: Acks, bus: nat -> Bus): Plan {
    (c: nat) => ChunkOf(total, c, acks, bus(c))
  }

  function ChunkOf(total: nat, c: nat, acks: Acks, bus: Bus): Chunk {
    var at := c * MAX_PAYLOAD_SIZE;
    ChunkAt(at, if at <= total then ChunkSize(total - at) else 0, acks, bus)
  }

  function ChunkAt(at: nat, n: nat, acks: Acks, bus: Bus): (chunk: Chunk)
    ensures chunk.put <= n && chunk.counted <= n
  {
    Chunk(Put(acks, at, n, bus), Transferred(HandedOver(acks, at, n, bus), bus), Ends(acks, at, n, bus) == Complete)
  }

  /**
    The bytes that driver_usb_send has put on the port in the end, when it has put `sent` there
    and goes on at byte `at`, where chunk `c` begins.
   */
  function BytesFrom(sent: seq<byte>, data: seq<byte>, at: nat, c: nat, plan: Plan): seq<byte>
    requires at <= |data|
    decreases |data| - at
  {
    var n := ChunkSize(|data| - at);
    var more := sent + Piece(data, at, n, plan(c).put);
    if plan(c).counted < n || at + n == |data| then more else BytesFrom(more, data, at + n, c + 1, plan)
  }

  /** The first `k` bytes of a chunk. */
  function Piece(data: seq<byte>, at: nat, n: nat, k: nat): seq<byte>
    requires at + n <= |data|
  {
    data[at..at + if k <= n then k else n]
  }

  /** What it counts, `count` bytes being counted already. */
  function CountFrom(count: int, total: nat, at: nat, c: nat, plan: Plan): int
    requires at <= total
    decreases total - at
  {
    var n := ChunkSize(total - at);
    var more := count + if plan(c).counted < 0 then 0 else plan(c).counted;
    if plan(c).counted < n || at + n == total then more else CountFrom(more, total, at + n, c + 1, plan)
  }

  /** The control transfer of one chunk. */
  method ControlOut(adapter: Adapter, endpoint: Endpoint, data: seq<byte>, at: nat, chunk: nat, acks: Acks, bus: Bus)
      returns (transferred: int)
    requires at + chunk <= |data|
    modifies adapter, endpoint
    ensures adapter.log == old(adapter.log) + Trace(data[at..at + Put(acks, at, chunk, bus)])
    ensures transferred == Transferred(HandedOver(acks, at, chunk, bus), bus)
  {
    var payload := data[at..at + chunk];
    var outcome := adapter.Send(endpoint, payload, acks, at, bus);
    SliceOfSlice(data, at, chunk, Put(acks, at, chunk, bus));
    HandOverRest(endpoint, payload, bus);
    transferred := Transferred(endpoint.taken, bus);
  }

  class Transfer {
    var at: nat  // `data`, as an offset
    var completed: nat

    constructor ()
      ensures at == 0 && completed == 0
    {
      at, completed := 0, 0;
    }

    /** send_chunk: only a chunk that was counted in full moves the transfer on. */
    method SendChunk(adapter: Adapter, endpoint: Endpoint, data: seq<byte>, chunk: nat, acks: Acks, bus: Bus,
                     ghost piece: seq<byte>, ghost counted: int) returns (more: bool)
      requires at + chunk <= |data|
      requires var planned := ChunkAt(at, chunk, acks, bus);
               piece == data[at..at + planned.put] && counted == planned.counted
      modifies this, adapter, endpoint
      ensures adapter.log == old(adapter.log) + Trace(piece)
      ensures more <==> counted == chunk
      ensures at == old(at) + (if more then chunk else 0)
      ensures completed == old(completed) + (if counted < 0 then 0 else counted)
    {
      var transferred := ControlOut(adapter, endpoint, data, at, chunk, acks, bus);
      if transferred < 0 {
        return false;
      }
      if transferred < chunk {
        completed := completed + transferred;
        return false;
      }
      at := at + chunk;
      completed := completed + chunk;
      return true;
    }
  }

  /** `chunked` around `send_chunk`. */
  method SendChunks(adapter: Adapter, data: seq<byte>, acks: Acks, bus: nat -> Bus, ghost plan: Plan)
      returns (completed: int)
    requires forall c: nat :: PlannedAs(|data|, c, acks, bus, plan)
    modifies adapter
    ensures adapter.log == old(adapter.log) + Trace(BytesFrom([], data, 0, 0, plan))
    ensures completed == CountFrom(0, |data|, 0, 0, plan)
  {
    var transfer := new Transfer();
    var endpoint := new Endpoint();
    var size: nat, chunk: nat, c := |data|, MAX_PAYLOAD_SIZE, 0;
    var more := true;
    ghost var sent: seq<byte> := [];
    while more
      invariant fresh(transfer) && fresh(endpoint) && adapter.log == old(adapter.log) + Trace(sent)
      invariant more ==> chunk == MAX_PAYLOAD_SIZE && transfer.at + size == |data|
      invariant more ==> Underway(data, plan, sent, transfer.completed, transfer.at, c)
      invariant !more ==> Over(data, plan, sent, transfer.completed)
      decreases more, size
    {
      if size > chunk {
        size := size - chunk;
      } else {
        chunk := size;
        size := 0;
      }
      assert PlannedAs(|data|, c, acks, bus, plan);
      var ok;
      ok, sent := SendPlanned(transfer, adapter, endpoint, data, chunk, acks, bus, c, plan, old(adapter.log), sent);
      c := c + 1;
      more := ok && size > 0;
    }
    completed := transfer.completed;
  }

  ghost predicate Underway(data: seq<byte>, plan: Plan, sent: seq<byte>, count: int, at: nat, c: nat) {
    && at == c * MAX_PAYLOAD_SIZE <= |data|
    && BytesFrom([], data, 0, 0, plan) == BytesFrom(sent, data, at, c, plan)
    && CountFrom(0, |data|, 0, 0, plan) == CountFrom(count, |data|, at, c, plan)
  }

  ghost predicate Over(data: seq<byte>, plan: Plan, sent: seq<byte>, count: int) {
    BytesFrom([], data, 0, 0, plan) == sent && CountFrom(0, |data|, 0, 0, plan) == count
  }

  lemma GoOn(data: seq<byte>, plan: Plan, sent: seq<byte>, count: int, at: nat, c: nat, n: nat,
             more: seq<byte>, sum: int, ok: bool)
    requires Underway(data, plan, sent, count, at, c) && n == ChunkSize(|data| - at)
    requires more == sent + Piece(data, at, n, plan(c).put)
    requires plan(c).counted <= n && (ok <==> plan(c).counted == n)
    requires sum == count + if plan(c).counted < 0 then 0 else plan(c).counted
    ensures if ok && at + n < |data| then Underway(data, plan, more, sum, at + n, c + 1)
            else Over(data, plan, more, sum)
  {
    BytesStep(sent, data, at, c, plan, n, more, ok);
    CountStep(count, |data|, at, c, plan, n, sum, ok);
  }

  /** send_chunk, in terms of the plan: `sent` bytes have been put on the port before. */
  method SendPlanned(transfer: Transfer, adapter: Adapter, endpoint: Endpoint, data: seq<byte>, chunk: nat,
                     acks: Acks, bus: nat -> Bus, c: nat, ghost plan: Plan, ghost before: seq<Event>,
                     ghost sent: seq<byte>) returns (more: bool, ghost now: seq<byte>)
    requires Underway(data, plan, sent, transfer.completed, transfer.at, c)
    requires chunk == ChunkSize(|data| - transfer.at)
    requires PlannedAs(|data|, c, acks, bus, plan) && adapter.log == before + Trace(sent)
    modifies transfer, adapter, endpoint
    ensures adapter.log == before + Trace(now)
    ensures transfer.at == old(transfer.at) + (if more then chunk else 0)
    ensures WentOn(data, plan, now, transfer.completed, transfer.at, c + 1, more)
  {
    ghost var piece, was, count := Piece(data, transfer.at, chunk, plan(c).put), adapter.log, transfer.completed;
    ChunkIs(data, transfer.at, c, chunk, acks, bus, plan);
    more := transfer.SendChunk(adapter, endpoint, data, chunk, acks, bus(c), piece, plan(c).counted);
    now := sent + piece;
    Planned(before, was, adapter.log, data, plan, sent, piece, now, count, old(transfer.at), c, chunk,
            transfer.completed, transfer.at, more);
  }

  /** Behind a chunk: the next one is due, or the transfer is over. */
  ghost predicate WentOn(data: seq<byte>, plan: Plan, sent: seq<byte>, count: int, at: nat, c: nat, ok: bool) {
    if ok && at < |data| then Underway(data, plan, sent, count, at, c) else Over(data, plan, sent, count)
  }

  lemma Planned(before: seq<Event>, was: seq<Event>, log: seq<Event>, data: seq<byte>, plan: Plan, sent: seq<byte>,
                piece: seq<byte>, now: seq<byte>, count: int, at: nat, c: nat, n: nat, sum: int, next: nat, ok: bool)
    requires Underway(data, plan, sent, count, at, c) && n == ChunkSize(|data| - at)
    requires was == before + Trace(sent) && log == was + Trace(piece) && piece == Piece(data, at, n, plan(c).put)
    requires plan(c).counted <= n && (ok <==> plan(c).counted == n)
    requires sum == count + if plan(c).counted < 0 then 0 else plan(c).counted
    requires now == sent + piece && next == at + if ok then n else 0
    ensures log == before + Trace(now) && WentOn(data, plan, now, sum, next, c + 1, ok)
  {
    TraceMore(before, was, log, sent, piece);
    GoOn(data, plan, sent, count, at, c, n, sent + piece, sum, ok);
  }

  /** The plan says of chunk `c` what this bus makes of it. */
  predicate PlannedAs(total: nat, c: nat, acks: Acks, bus: nat -> Bus, plan: Plan) {
    plan(c) == ChunkOf(total, c, acks, bus(c))
  }

  lemma ChunkIs(data: seq<byte>, at: nat, c: nat, n: nat, acks: Acks, bus: nat -> Bus, plan: Plan)
    requires at == c * MAX_PAYLOAD_SIZE <= |data| && n == ChunkSize(|data| - at)
    requires PlannedAs(|data|, c, acks, bus, plan)
    ensures var chunk := ChunkAt(at, n, acks, bus(c));
            plan(c) == chunk && Piece(data, at, n, chunk.put) == data[at..at + chunk.put]
  {
  }

  /** driver_usb_send.  What its result means is the subject of the lemmas below. */
  method Send(adapter: Adapter, data: seq<byte>, acks: Acks, bus: nat -> Bus) returns (result: bool, completed: int)
    modifies adapter
    ensures adapter.log == old(adapter.log) + Trace(BytesFrom([], data, 0, 0, PlanOf(|data|, acks, bus)))
    ensures 0 <= completed <= |data|
    ensures result <==> AllCounted(|data|, 0, PlanOf(|data|, acks, bus))
    ensures forall a: nat :: OnlyLate(acks, |data|, a) && InOrder(bus) ==>
              && (result <==> a >= |data| || Unnoticed(a, |data|))
              && adapter.log == old(adapter.log) + Trace(StillPut(data, 0, a))
  {
    ghost var plan := PlanOf(|data|, acks, bus);
    PlanFollows(|data|, acks, bus);
    completed := SendChunks(adapter, data, acks, bus, plan);
    result := completed == |data|;
    CountedIff(|data|, 0, 0, plan);
    AllInNumbers(data, acks, bus);
  }

  lemma BytesStep(sent: seq<byte>, data: seq<byte>, at: nat, c: nat, plan: Plan, n: nat, now: seq<byte>, ok: bool)
    requires at <= |data| && n == ChunkSize(|data| - at) && now == sent + Piece(data, at, n, plan(c).put)
    requires plan(c).counted <= n && (ok <==> plan(c).counted == n)
    ensures BytesFrom(sent, data, at, c, plan)
         == if ok && at + n < |data| then BytesFrom(now, data, at + n, c + 1, plan) else now
  {
  }

  lemma CountStep(count: int, total: nat, at: nat, c: nat, plan: Plan, n: nat, now: int, ok: bool)
    requires at <= total && n == ChunkSize(total - at) && plan(c).counted <= n && (ok <==> plan(c).counted == n)
    requires now == count + if plan(c).counted < 0 then 0 else plan(c).counted
    ensures CountFrom(count, total, at, c, plan)
         == if ok && at + n < total then CountFrom(now, total, at + n, c + 1, plan) else now
  {
  }

  // ---- what the result means -----------------------------------------------------------------------

  /** The host counts chunk `c` in full, if there is one. */
  predicate Counted(total: nat, c: nat, plan: Plan) {
    var at := c * MAX_PAYLOAD_SIZE;
    at < total ==> plan(c).counted >= ChunkSize(total - at)
  }

  /** ... and every later one. */
  ghost predicate AllCounted(total: nat, c: nat, plan: Plan) {
    forall d: nat :: c <= d ==> Counted(total, d, plan)
  }

  lemma CountedMore(total: nat, c: nat, plan: Plan)
    ensures AllCounted(total, c, plan) <==> Counted(total, c, plan) && AllCounted(total, c + 1, plan)
    ensures total <= c * MAX_PAYLOAD_SIZE ==> AllCounted(total, c, plan)
  {
  }

  predicate NotOverCounted(total: nat, c: nat, plan: Plan) {
    var at := c * MAX_PAYLOAD_SIZE;
    at <= total ==> plan(c).counted <= ChunkSize(total - at)
  }

  lemma PlanFollows(total: nat, acks: Acks, bus: nat -> Bus)
    ensures var plan := PlanOf(total, acks, bus);
            forall c: nat :: PlannedAs(total, c, acks, bus, plan) && NotOverCounted(total, c, plan)
  {
  }

  lemma {:induction false} CountedIff(total: nat, at: nat, c: nat, plan: Plan)
    requires at == c * MAX_PAYLOAD_SIZE <= total
    requires forall d: nat :: NotOverCounted(total, d, plan)
    ensures var completed := CountFrom(at, total, at, c, plan);
            at <= completed <= total && (completed == total <==> AllCounted(total, c, plan))
    decreases total - at
  {
    var n := ChunkSize(total - at);
    CountedMore(total, c, plan);
    CountedMore(total, c + 1, plan);
    assert NotOverCounted(total, c, plan);
    if plan(c).counted == n && at + n < total {
      CountedIff(total, at + n, c + 1, plan);
    }
  }

  /** The host counts a chunk in full exactly if it was acknowledged to the end. */
  predicate TellsChunk(total: nat, c: nat, plan: Plan) {
    c * MAX_PAYLOAD_SIZE < total ==> (Counted(total, c, plan) <==> plan(c).complete)
  }

  ghost predicate Tells(total: nat, plan: Plan) {
    forall c: nat :: TellsChunk(total, c, plan)
  }

  /** How a chunk of `n` bytes behind `at` acknowledged ones fits into the plain byte loop. */
  predicate Fits(total: nat, at: nat, n: nat, acks: Acks, p: Chunk, delivered: bool)
    requires at + n <= total
  {
    && p.put <= n && at + p.put <= Reached(acks, 0, total)
    && (p.complete <==> p.put == n && AllAcked(acks, 0, at + n))
    && (!p.complete ==> !(at + p.put == total && Acked(acks, 0, total) == total))
    && (!p.complete && delivered ==> at + p.put == Reached(acks, 0, total))
    && (p.complete && at + n == total ==> Acked(acks, 0, total) == Reached(acks, 0, total) == total)
  }

  lemma ChunkFits(total: nat, at: nat, n: nat, acks: Acks, bus: Bus)
    requires at + n <= total && AllAcked(acks, 0, at)
    ensures Fits(total, at, n, acks, ChunkAt(at, n, acks, bus), bus.delivered * PACKET >= n)
  {
    AckedBehind(acks, 0, at, n, total);
    AckedAtLeast(acks, 0, total, at);
  }

  /** A plan all of whose chunks fit, and whether every packet of them gets through. */
  ghost predicate IsPlan(total: nat, acks: Acks, plan: Plan, delivered: bool) {
    forall c: nat :: ChunkIsPlanned(total, c, acks, plan, delivered)
  }

  predicate ChunkIsPlanned(total: nat, c: nat, acks: Acks, plan: Plan, delivered: bool) {
    var at := c * MAX_PAYLOAD_SIZE;
    at <= total && AllAcked(acks, 0, at) ==> Fits(total, at, ChunkSize(total - at), acks, plan(c), delivered)
  }

  /** Every packet of every chunk gets through. */
  ghost predicate Delivers(bus: nat -> Bus) {
    forall c :: bus(c).delivered * PACKET >= MAX_PAYLOAD_SIZE
  }

  lemma PlanIsPlan(total: nat, acks: Acks, bus: nat -> Bus)
    ensures IsPlan(total, acks, PlanOf(total, acks, bus), Delivers(bus))
  {
    var plan, delivers := PlanOf(total, acks, bus), Delivers(bus);
    forall c: nat ensures ChunkIsPlanned(total, c, acks, plan, delivers) {
      var at := c * MAX_PAYLOAD_SIZE;
      if at <= total && AllAcked(acks, 0, at) {
        ChunkFits(total, at, ChunkSize(total - at), acks, bus(c));
        assert plan(c) == ChunkOf(total, c, acks, bus(c));
        assert delivers ==> bus(c).delivered * PACKET >= MAX_PAYLOAD_SIZE;
      }
    }
  }

  /** How many bytes are on the port when a host that tells stops. */
  function PutFrom(total: nat, at: nat, c: nat, plan: Plan): nat
    requires at <= total
    decreases total - at
  {
    var n := ChunkSize(total - at);
    if plan(c).complete && at + n < total then PutFrom(total, at + n, c + 1, plan) else at + plan(c).put
  }

  lemma {:induction false} TellingPuts(total: nat, at: nat, c: nat, acks: Acks, plan: Plan, delivered: bool)
    requires at == c * MAX_PAYLOAD_SIZE <= total && AllAcked(acks, 0, at)
    requires IsPlan(total, acks, plan, delivered) && Tells(total, plan)
    ensures var put := PutFrom(total, at, c, plan);
            && put <= Reached(acks, 0, total)
            && (AllCounted(total, c, plan) <==> put == total && Acked(acks, 0, total) == total)
            && (delivered ==> put == Reached(acks, 0, total))
    decreases total - at
  {
    var n := ChunkSize(total - at);
    assert ChunkIsPlanned(total, c, acks, plan, delivered) && TellsChunk(total, c, plan);
    CountedMore(total, c, plan);
    CountedMore(total, c + 1, plan);
    if plan(c).complete && at + n < total {
      TellingPuts(total, at + n, c + 1, acks, plan, delivered);
    }
  }

  lemma {:induction false} TellingBytes(data: seq<byte>, at: nat, c: nat, acks: Acks, plan: Plan, delivered: bool)
    requires at == c * MAX_PAYLOAD_SIZE <= |data| && AllAcked(acks, 0, at)
    requires IsPlan(|data|, acks, plan, delivered) && Tells(|data|, plan)
    ensures PutFrom(|data|, at, c, plan) <= |data|
    ensures BytesFrom(data[..at], data, at, c, plan) == data[..PutFrom(|data|, at, c, plan)]
    decreases |data| - at
  {
    var n, k := ChunkSize(|data| - at), plan(c).put;
    assert ChunkIsPlanned(|data|, c, acks, plan, delivered) && TellsChunk(|data|, c, plan);
    assert data[..at] + Piece(data, at, n, k) == data[..at + k];
    if plan(c).complete && at + n < |data| {
      TellingBytes(data, at + n, c + 1, acks, plan, delivered);
    }
  }

  /**
    With a host that tells, the port sees a prefix of what driver_parport_send would do with the
    same acknowledges, all of it when every packet gets through; and the result is true exactly
    when every byte has been sent and acknowledged.
   */
  lemma TellingRefines(data: seq<byte>, acks: Acks, bus: nat -> Bus)
    requires Tells(|data|, PlanOf(|data|, acks, bus))
    ensures var plan := PlanOf(|data|, acks, bus);
            var put := PutFrom(|data|, 0, 0, plan);
            && put <= Reached(acks, 0, |data|)
            && BytesFrom([], data, 0, 0, plan) == data[..put]
            && (AllCounted(|data|, 0, plan) <==> put == |data| && Acked(acks, 0, |data|) == |data|)
            && (Delivers(bus) ==> put == Reached(acks, 0, |data|))
            && (Delivers(bus) ==> (AllCounted(|data|, 0, plan) <==> Acked(acks, 0, |data|) == |data|))
  {
    var plan := PlanOf(|data|, acks, bus);
    PlanIsPlan(|data|, acks, bus);
    TellingPuts(|data|, 0, 0, acks, plan, Delivers(bus));
    assert data[..0] == [];
    TellingBytes(data, 0, 0, acks, plan, Delivers(bus));
  }

  // ---- when a time-out can pass for success -----------------------------------------------------------

  /** Byte `a` of `n` travels in the last packet. */
  predicate InLastPacket(a: nat, n: nat) {
    a < n && a / PACKET == (n - 1) / PACKET
  }

  /** Nothing is late in chunk `c`, or only something in its last packet. */
  predicate LateOnlyLast(total: nat, c: nat, acks: Acks) {
    var at := c * MAX_PAYLOAD_SIZE;
    at < total ==>
      var n := ChunkSize(total - at);
      var a := Acked(acks, at, n);
      a == n || InLastPacket(a, n)
  }

  /** The bus delivers chunk `c`, and the host reports what it got rid of. */
  predicate Easy(total: nat, c: nat, bus: nat -> Bus) {
    var at := c * MAX_PAYLOAD_SIZE;
    at < total ==>
      var n := ChunkSize(total - at);
      Carried(n, bus(c)) == n && bus(c).reported >= n
  }

  lemma {:induction false} PacketEndLast(a: nat, n: nat)
    requires a < n
    ensures PacketEnd(a, n) == n <==> InLastPacket(a, n)
    decreases n
  {
    if n > PACKET {
      assert (n - 1) / PACKET == (n - PACKET - 1) / PACKET + 1;
      if a >= PACKET {
        assert a / PACKET == (a - PACKET) / PACKET + 1;
        PacketEndLast(a - PACKET, n - PACKET);
      }
    }
  }

  /** Packets that hold byte `a` of the last one are all. */
  lemma LastCarried(a: nat, n: nat, bus: Bus)
    requires a < Carried(n, bus) && InLastPacket(a, n)
    ensures Carried(n, bus) == n
  {
    assert a / PACKET < bus.delivered;
    assert (n - 1) / PACKET + 1 <= bus.delivered;
  }

  /** The host gets rid of all of a chunk exactly if it is delivered and late at most at its end. */
  lemma AllHandedOver(acks: Acks, at: nat, n: nat, bus: Bus)
    ensures HandedOver(acks, at, n, bus) == n <==>
              Carried(n, bus) == n && (Acked(acks, at, n) == n || InLastPacket(Acked(acks, at, n), n))
  {
    var a := Acked(acks, at, n);
    if a < Carried(n, bus) {
      PacketEndLast(a, n);
      if InLastPacket(a, n) {
        LastCarried(a, n, bus);
      }
    }
  }

  lemma CountedExact(total: nat, c: nat, acks: Acks, bus: nat -> Bus)
    ensures Counted(total, c, PlanOf(total, acks, bus)) <==> LateOnlyLast(total, c, acks) && Easy(total, c, bus)
  {
    var at := c * MAX_PAYLOAD_SIZE;
    if at < total {
      AllHandedOver(acks, at, ChunkSize(total - at), bus(c));
    }
  }

  /**
    Over any bus and with any host, driver_usb_send reports success exactly if the bus delivers
    every chunk, the host reports what it got rid of, and no byte is late, or each only in the
    last packet of its chunk.
   */
  lemma SuccessExact(total: nat, acks: Acks, bus: nat -> Bus)
    ensures AllCounted(total, 0, PlanOf(total, acks, bus)) <==>
              forall c: nat :: LateOnlyLast(total, c, acks) && Easy(total, c, bus)
  {
    forall c: nat
      ensures Counted(total, c, PlanOf(total, acks, bus)) <==> LateOnlyLast(total, c, acks) && Easy(total, c, bus)
    {
      CountedExact(total, c, acks, bus);
    }
  }

  /** A bus that delivers everything, to a host that counts everything. */
  const EASY: nat -> Bus := c => Bus(MAX_PAYLOAD_SIZE, MAX_PAYLOAD_SIZE)

  /** Late bytes can pass for success exactly if each comes in the last packet of its chunk. */
  lemma SuccessPossible(total: nat, acks: Acks)
    ensures (exists bus: nat -> Bus :: AllCounted(total, 0, PlanOf(total, acks, bus))) <==>
              forall c: nat :: LateOnlyLast(total, c, acks)
  {
    forall bus: nat -> Bus
      ensures AllCounted(total, 0, PlanOf(total, acks, bus)) ==> forall c: nat :: LateOnlyLast(total, c, acks)
    {
      SuccessExact(total, acks, bus);
    }
    SuccessExact(total, acks, EASY);
    assert forall c: nat :: Easy(total, c, EASY);
  }

  /** A command header travels in one packet: any time-out of it passes for success. */
  lemma HeaderMisleads(total: nat, acks: Acks)
    requires 1 <= total <= PACKET
    ensures AllCounted(total, 0, PlanOf(total, acks, EASY))
  {
    SuccessExact(total, acks, EASY);
  }

  // ---- in plain numbers -------------------------------------------------------------------------------

  /** Byte `a`, if there is one, is the only one that is late. */
  predicate OnlyLate(acks: Acks, total: nat, a: nat) {
    forall i :: 0 <= i < total ==> (acks(i) <==> i != a)
  }

  /** The bus delivers everything, and the host reports what it got rid of. */
  ghost predicate InOrder(bus: nat -> Bus) {
    forall c: nat :: bus(c).delivered >= 64 && bus(c).reported >= 4096
  }

  /** Where the chunk of byte `a` ends: 4096 bytes each, but for the last. */
  function EndOfChunk(a: nat, total: nat): nat {
    var end := a / 4096 * 4096 + 4096;
    if end < total then end else total
  }

  /** Byte `a` is among the last 64 of its chunk, or as many as there are in the last packet. */
  predicate Unnoticed(a: nat, total: nat)
    requires a < total
  {
    a % 4096 / 64 == (EndOfChunk(a, total) - 1) % 4096 / 64
  }

  lemma UnnoticedIs(a: nat, total: nat, at: nat, n: nat, c: nat)
    requires at == c * 4096 && at < total && n == ChunkSize(total - at) && at <= a < at + n <= total
    ensures EndOfChunk(a, total) == at + n
    ensures Unnoticed(a, total) <==> InLastPacket(a - at, n)
  {
    assert a / 4096 == c && a % 4096 == a - at;
    assert (at + n - 1) % 4096 == n - 1;
  }

  /** What a request of `n` bytes puts on the port when `d` packets of 64 come through: up to the first late byte. */
  lemma PutInNumbers(acks: Acks, base: nat, n: nat, bus: Bus)
    ensures var come := if bus.delivered * 64 < n then bus.delivered * 64 else n;
            var k := Put(acks, base, n, bus);
            && (AllAcked(acks, base, come) ==> k == come)
            && (!AllAcked(acks, base, come) ==>
                  0 < k <= come && AllAcked(acks, base, k - 1) && !acks(base + k - 1))
  {
    var come := Carried(n, bus);
    AckedIs(acks, base, come, Acked(acks, base, come));
    var a := Acked(acks, base, come);
    if a < come {
      AckedIs(acks, base, n, a);
    } else {
      AckedAtLeast(acks, base, n, come);
    }
  }

  /** What becomes of chunk `c` when the bus is in order. */
  predicate GoesInOrder(total: nat, c: nat, a: nat, plan: Plan) {
    var at := c * 4096;
    at < total ==>
      var n := ChunkSize(total - at);
      if at <= a < at + n
      then plan(c).put == a - at + 1 && plan(c).counted <= n && (plan(c).counted == n <==> Unnoticed(a, total))
      else plan(c).put == n && plan(c).counted == n
  }

  lemma ChunkInOrder(total: nat, c: nat, acks: Acks, bus: nat -> Bus, a: nat)
    requires OnlyLate(acks, total, a) && InOrder(bus)
    ensures GoesInOrder(total, c, a, PlanOf(total, acks, bus))
  {
    var at := c * 4096;
    if at < total {
      var n := ChunkSize(total - at);
      AckedInOrder(acks, total, a, at, n);
      assert Carried(n, bus(c)) == n;
      AllHandedOver(acks, at, n, bus(c));
      if at <= a < at + n {
        UnnoticedIs(a, total, at, n, c);
      }
    }
  }

  lemma AckedInOrder(acks: Acks, total: nat, a: nat, at: nat, n: nat)
    requires OnlyLate(acks, total, a) && at + n <= total
    ensures Acked(acks, at, n) == if at <= a < at + n then a - at else n
  {
    AckedIs(acks, at, n, if at <= a < at + n then a - at else n);
  }

  /** What driver_usb_send still puts on the port from byte `at` on. */
  function StillPut(data: seq<byte>, at: nat, a: nat): seq<byte>
    requires at <= |data|
  {
    if a < at || a >= |data| then data[at..]
    else if Unnoticed(a, |data|) then data[at..a + 1] + data[EndOfChunk(a, |data|)..]
    else data[at..a + 1]
  }

  lemma {:induction false} BytesInOrder(sent: seq<byte>, data: seq<byte>, at: nat, c: nat, plan: Plan, a: nat)
    requires at == c * 4096 <= |data| && forall d: nat :: GoesInOrder(|data|, d, a, plan)
    ensures at < |data| ==> BytesFrom(sent, data, at, c, plan) == sent + StillPut(data, at, a)
    decreases |data| - at
  {
    if at < |data| {
      var n, put := ChunkSize(|data| - at), plan(c).put;
      var more := sent + Piece(data, at, n, put);
      assert GoesInOrder(|data|, c, a, plan);
      BytesStep(sent, data, at, c, plan, n, more, plan(c).counted == n);
      if at + n < |data| {
        BytesInOrder(more, data, at + n, c + 1, plan, a);
      }
      PieceInOrder(sent, data, at, n, c, a, put);
    }
  }

  lemma PieceInOrder(sent: seq<byte>, data: seq<byte>, at: nat, n: nat, c: nat, a: nat, put: nat)
    requires at == c * 4096 < |data| && n == ChunkSize(|data| - at)
    requires put == if at <= a < at + n then a - at + 1 else n
    ensures sent + StillPut(data, at, a)
         == sent + Piece(data, at, n, put)
            + if at <= a < at + n && !Unnoticed(a, |data|) then [] else StillPut(data, at + n, a)
    ensures at + n == |data| ==> StillPut(data, at + n, a) == []
  {
    if at <= a < at + n {
      UnnoticedIs(a, |data|, at, n, c);
      LatePiece(sent, data, at, n, a);
    } else {
      WholePiece(sent, data, at, n, a);
    }
  }

  lemma WholePiece(sent: seq<byte>, data: seq<byte>, at: nat, n: nat, a: nat)
    requires 0 < n && at + n <= |data| && !(at <= a < at + n)
    ensures sent + StillPut(data, at, a) == sent + Piece(data, at, n, n) + StillPut(data, at + n, a)
    ensures at + n == |data| ==> StillPut(data, at + n, a) == []
  {
    if a < at || a >= |data| {
      Parts(sent, data, at, at + n, |data|, []);
    } else {
      PieceBefore(sent, data, at, n, a, if Unnoticed(a, |data|) then data[EndOfChunk(a, |data|)..] else []);
    }
  }

  lemma PieceBefore(sent: seq<byte>, data: seq<byte>, at: nat, n: nat, a: nat, tail: seq<byte>)
    requires at + n <= a < |data|
    requires tail == if Unnoticed(a, |data|) then data[EndOfChunk(a, |data|)..] else []
    ensures sent + StillPut(data, at, a) == sent + data[at..at + n] + StillPut(data, at + n, a)
  {
    Parts(sent, data, at, at + n, a + 1, tail);
    assert StillPut(data, at, a) == data[at..a + 1] + tail;
    assert StillPut(data, at + n, a) == data[at + n..a + 1] + tail;
  }

  lemma Parts(sent: seq<byte>, data: seq<byte>, i: nat, j: nat, k: nat, tail: seq<byte>)
    requires i <= j <= k <= |data|
    ensures sent + (data[i..k] + tail) == sent + data[i..j] + (data[j..k] + tail)
    ensures tail == [] ==> data[i..k] + tail == data[i..k] && data[j..k] + tail == data[j..k]
  {
    assert data[i..k] == data[i..j] + data[j..k];
  }

  lemma LatePiece(sent: seq<byte>, data: seq<byte>, at: nat, n: nat, a: nat)
    requires at <= a < at + n <= |data| && EndOfChunk(a, |data|) == at + n
    ensures sent + StillPut(data, at, a)
         == sent + Piece(data, at, n, a - at + 1) + if Unnoticed(a, |data|) then StillPut(data, at + n, a) else []
    ensures at + n == |data| ==> StillPut(data, at + n, a) == []
  {
  }

  /**
    With at most one late byte, bus and host being in order: success is reported exactly if there is
    none or it is late in the last packet of its chunk; and all bytes are put on the port but for
    those behind the late one, in its chunk or, where it is noticed, at all.
   */
  lemma InNumbers(data: seq<byte>, acks: Acks, bus: nat -> Bus, a: nat)
    requires OnlyLate(acks, |data|, a) && InOrder(bus)
    ensures var plan := PlanOf(|data|, acks, bus);
            && (AllCounted(|data|, 0, plan) <==> a >= |data| || Unnoticed(a, |data|))
            && BytesFrom([], data, 0, 0, plan)
               == if a >= |data| then data
                  else if Unnoticed(a, |data|) then data[..a + 1] + data[EndOfChunk(a, |data|)..]
                  else data[..a + 1]
  {
    var plan := PlanOf(|data|, acks, bus);
    forall c: nat ensures GoesInOrder(|data|, c, a, plan) {
      ChunkInOrder(|data|, c, acks, bus, a);
    }
    BytesInOrder([], data, 0, 0, plan, a);
    CountedInOrder(|data|, plan, a);
    if data == [] {
      NothingToSend(plan);
    }
  }

  lemma NothingToSend(plan: Plan)
    ensures BytesFrom([], [], 0, 0, plan) == []
  {
    assert Piece([], 0, 0, plan(0).put) == [];
  }

  lemma CountedInOrder(total: nat, plan: Plan, a: nat)
    requires forall c: nat :: GoesInOrder(total, c, a, plan)
    ensures AllCounted(total, 0, plan) <==> a >= total || Unnoticed(a, total)
  {
    forall c: nat
      ensures Counted(total, c, plan) <==> !(c == a / 4096 && a < total && !Unnoticed(a, total))
    {
      assert GoesInOrder(total, c, a, plan);
    }
    assert Counted(total, a / 4096, plan) || (a < total && !Unnoticed(a, total));
  }

  lemma AllInNumbers(data: seq<byte>, acks: Acks, bus: nat -> Bus)
    ensures var plan := PlanOf(|data|, acks, bus);
            forall a: nat :: OnlyLate(acks, |data|, a) && InOrder(bus) ==>
              && (AllCounted(|data|, 0, plan) <==> a >= |data| || Unnoticed(a, |data|))
              && BytesFrom([], data, 0, 0, plan) == StillPut(data, 0, a)
  {
    var plan := PlanOf(|data|, acks, bus);
    forall a: nat | OnlyLate(acks, |data|, a) && InOrder(bus)
      ensures AllCounted(|data|, 0, plan) <==> a >= |data| || Unnoticed(a, |data|)
      ensures BytesFrom([], data, 0, 0, plan) == StillPut(data, 0, a)
    {
      InNumbers(data, acks, bus, a);
    }
  }
}
