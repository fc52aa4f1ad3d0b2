/**
  xlink_load and xlink_save end to end: the byte layout of xlink.c, sent over the handshake to
  the server's memory, for every schedule of the two sides.
 */
module Transfer {
  import opened Bytes
  import opened Server
  import opened Handshake
  import Placement

  /** A load, as one stream of bytes that starts with the ping. */
  function Load(server: Machine, via: Via, address: word, data: seq<byte>): Job {
    Job(server, LoadBytes(via.load, via.bank, address, data), 0)
  }

  /** A save, which turns the port around behind its header. */
  function Save(server: Machine, via: Via, address: word, size: nat): Job {
    Job(server, SaveBytes(via.save, via.bank, address, size), size)
  }

  lemma LoadAnswers(server: Machine, via: Via, address: word, data: seq<byte>)
    requires server.phase.Idle? && 1 <= |data| <= SIZE
    requires Clear(WayOf(server, via.load, address), address, |data|)
    ensures Answers(Load(server, via, address, data))
  {
    var j := Load(server, via, address, data);
    LoadExact(server, via.load, via.bank, address, data);
    forall k | 0 <= k < |j.bytes| ensures Reads(TakeAll(server, j.bytes[..k]).phase) {
      LoadUnfinished(server, via.load, via.bank, address, data, k);
    }
  }

  /** The server gives as many bytes as the PC expects exactly for the sizes up to 65536. */
  lemma SaveAnswers(server: Machine, via: Via, address: word, size: nat)
    requires server.phase.Idle? && 1 <= size
    ensures Answers(Save(server, via, address, size)) <==> size <= SIZE
  {
    var bytes := SaveBytes(via.save, via.bank, address, size);
    forall k | 0 <= k < |bytes| ensures Reads(TakeAll(server, bytes[..k]).phase) {
      HeaderTaken(server, bytes, k);
    }
    SaveHeader(server, via.save, via.bank, address, size);
    SaveExact(server, via.save, via.bank, address, size);
    RoundsExact(size);
  }

  /**
    A load that reports success has left the server ready for a command.  Outside its workspace
    precisely the addressed cells have changed, to the bytes sent, and behind a BASIC program
    the BASIC end pointer; the slow path has set the port.
   */
  lemma LoadEndToEnd(server: Machine, via: Via, address: word, data: seq<byte>,
                     pa2: bool, noise: byte, schedule: seq<Action>)
    requires server.phase.Idle? && 1 <= |data| <= SIZE
    requires Clear(WayOf(server, via.load, address), address, |data|)
    ensures var j := Load(server, via, address, data);
            var s := Exec(j, Start(j, pa2, noise), schedule);
            s.pc.Done? ==>
              && s.m == LoadedBy(server, via, address, data) && s.m.phase.Idle?
              && forall c: word :: Addressed(c, address, |data|) || c !in WORKSPACE ==>
                   s.m.mem[c] == Loaded(server, via.load, address, data, c)
  {
    LoadAnswers(server, via, address, data);
    Outcome(Load(server, via, address, data), pa2, noise, schedule);
    LoadExact(server, via.load, via.bank, address, data);
  }

  /**
    A load that reports success, then at any later time a save of the same range that reports
    success: the save returns the bytes that were loaded.
   */
  lemma LoadSaveEndToEnd(server: Machine, via: Via, address: word, data: seq<byte>,
                         pa2: bool, noise: byte, loading: seq<Action>,
                         later: Memory, pa2': bool, noise': byte, saving: seq<Action>)
    requires server.phase.Idle? && 1 <= |data| <= SIZE
    requires Undisturbed(server, via, address, |data|) && Intact(server, via, address, |data|)
    ensures var j := Load(server, via, address, data);
            var loaded := Exec(j, Start(j, pa2, noise), loading);
            var j' := Save(loaded.m.(mem := later), via, address, |data|);
            var s := Exec(j', Start(j', pa2', noise'), saving);
            loaded.pc.Done? && Between(loaded.m, later) && s.pc.Done? ==> s.got == data
  {
    var j := Load(server, via, address, data);
    var loaded := Exec(j, Start(j, pa2, noise), loading);
    WorkspaceIsClear(server, via, address, |data|);
    LoadEndToEnd(server, via, address, data, pa2, noise, loading);
    if loaded.pc.Done? && Between(loaded.m, later) {
      var j' := Save(loaded.m.(mem := later), via, address, |data|);
      IntactRoundTrips(server, via, address, data);
      SaveAnswers(j'.server, via, address, |data|);
      Outcome(j', pa2', noise', saving);
    }
  }

  // ---- the client's defaults ----------------------------------------------------------------------

  /** command_load, when no configuration is asked for: $33 if the range touches I/O, else $37. */
  function LoadMemory(address: word, size: nat): byte {
    if Placement.Overlaps(Placement.Span(address, address + size), Placement.Span(0xd000, 0xe000)) then 0x33
    else NORMAL
  }

  /** command_load and command_save, both with their defaults. */
  function Defaults(address: word, size: nat, bank: byte): Via {
    Via(LoadMemory(address, size), NORMAL, bank)
  }

  lemma AddressedIs(c: word, address: word, size: nat)
    requires address + size <= SIZE
    ensures Addressed(c, address, size) <==> address <= c < address + size
  {
  }

  /** The defaults keep a load from storing into I/O. */
  lemma DefaultsReachRam(m: Machine, address: word, size: nat)
    requires PORT < address && address + size <= SIZE
    ensures StoresReach(WayOf(m, LoadMemory(address, size), address), address, size)
  {
    forall c: word | Addressed(c, address, size)
      ensures Stored(m.mem[PORT], LoadsFast(LoadMemory(address, size)), c)
    {
      AddressedIs(c, address, size);
    }
  }

  /** With $37 in the port and asked for, RAM is what the CPU sees below $a000 and in $c000-$cfff. */
  lemma DefaultsVisible(m: Machine, address: word, size: nat, bank: byte)
    requires m.mem[PORT] == NORMAL && 1 <= size && PORT < address && address + size <= SIZE
    ensures Visible(m, Defaults(address, size, bank), address, size) <==>
              address + size <= 0xa000 || (0xc000 <= address && address + size <= 0xd000)
  {
    forall c: word
      ensures Addressed(c, address, size) <==> address <= c < address + size
      ensures PORT < c ==> (ViewOf(NORMAL, c).Ram? <==> c < 0xa000 || 0xc000 <= c < 0xd000)
    {
      AddressedIs(c, address, size);
    }
    var c: word := if address < 0xa000 then 0xa000 else if 0xc000 <= address < 0xd000 then 0xd000 else address;
    assert c < address + size ==> Addressed(c, address, size);
  }

  /**
    With the client's defaults and $37 in the port every content of a range above the first four
    pages makes the round trip if and only if the range lies below $a000 or in $c000-$cfff,
    provided that it spares the server's code and what the KERNAL's interrupt changes.
   */
  lemma DefaultsExact(m: Machine, address: word, size: nat, bank: byte)
    requires m.phase.Idle? && m.mem[PORT] == NORMAL
    requires 1 <= size && 0x0400 <= address && address + size <= SIZE
    requires Spares(m.world.code, address, size) && Spares(m.world.kernal, address, size)
    ensures (forall data: seq<byte> :: |data| == size ==>
               && LoadsExactly(m, Defaults(address, size, bank), address, data)
               && RoundTrips(m, Defaults(address, size, bank), address, data)) <==>
            address + size <= 0xa000 || (0xc000 <= address && address + size <= 0xd000)
  {
    DefaultsReachRam(m, address, size);
    DefaultsVisible(m, address, size, bank);
    SparesLowCells(m, address, size);
    TransfersExact(m, Defaults(address, size, bank), address, size);
  }
}
