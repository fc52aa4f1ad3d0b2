/**
  Where a RAM server is moved to before data is loaded over it: the search of client.c over
  the closed ranges of range.c.
 */
module Placement {
  import opened Bytes

  /** A closed range of addresses. */
  datatype Span = Span(start: int, end: int)

  // ---- range.c ------------------------------------------------------------------------------

  predicate Inside(a: Span, b: Span) {
    a == b || (a.start >= b.start && a.end <= b.end)
  }

  predicate Overlaps(a: Span, b: Span) {
    || a == b
    || (a.start >= b.start && a.start <= b.end)
    || (a.end >= b.start && a.end <= b.end)
    || (b.start >= a.start && b.start <= a.end)
    || (b.end >= a.start && b.end <= a.end)
  }

  /** For proper ranges, overlapping is having an address in common: touching counts. */
  lemma OverlapsIsSharing(a: Span, b: Span)
    requires a.start <= a.end && b.start <= b.end
    ensures Overlaps(a, b) == Overlaps(b, a)
    ensures Overlaps(a, b) <==> exists x :: Holds(a, x) && Holds(b, x)
  {
    assert Overlaps(a, b) ==> Holds(a, if a.start <= b.start then b.start else a.start);
  }

  predicate Holds(s: Span, x: int) {
    s.start <= x <= s.end
  }

  const MIN := 0
  const MAX := 0x1_0000

  /** By how much a range really moves: it stops at either end of memory. */
  function Clamped(s: Span, amount: int): int {
    var up := if amount > 0 && s.end + amount > MAX then MAX - s.end else amount;
    if up < 0 && s.start + up < MIN then -s.start else up
  }

  /** Moving keeps the size, stays in memory, and is exact as long as there is room. */
  lemma ClampedKeepsInMemory(s: Span, amount: int)
    requires MIN <= s.start <= s.end <= MAX
    ensures var shift := Clamped(s, amount);
            && MIN <= s.start + shift && s.end + shift <= MAX
            && (MIN <= s.start + amount && s.end + amount <= MAX ==> shift == amount)
            && (s.start + amount < MIN ==> s.start + shift == MIN)
            && (s.end + amount > MAX ==> s.end + shift == MAX)
  {
  }

  class Range {
    var start: int
    var end: int

    function Value(): Span
      reads this
    {
      Span(start, end)
    }

    constructor (start: int, end: int)
      ensures Value() == Span(start, end)
    {
      this.start, this.end := start, end;
    }

    /** range_move. */
    method Move(amount: int)
      modifies this
      ensures start == old(start) + Clamped(old(Value()), amount)
      ensures end - start == old(end - start)
    {
      var shift := amount;
      if shift == 0 {
        return;
      }
      if shift > 0 {
        if end + shift > MAX {
          shift := shift - (end + shift - MAX);
        }
      }
      if shift < 0 {
        if start + shift < MIN {
          shift := shift - (start + shift);
        }
      }
      start := start + shift;
      end := end + shift;
    }
  }

  // ---- one region -----------------------------------------------------------------------------

  datatype Option<T> = None | Some(value: T)

  /** Code of this length at `a` lies in the region and has no address in common with the data. */
  predicate Fits(region: Span, data: Span, length: nat, a: int) {
    region.start <= a && a + length <= region.end && !Overlaps(Span(a, a + length), data)
  }

  /** `a` is the highest address that fits. */
  ghost predicate Highest(region: Span, data: Span, length: nat, a: int) {
    Fits(region, data, length, a) && forall b :: Fits(region, data, length, b) ==> b <= a
  }

  ghost predicate NoneFits(region: Span, data: Span, length: nat) {
    forall b :: !Fits(region, data, length, b)
  }

  /** One of the three loops of command_server_relocation_possible. */
  method SearchRegion(code: Range, region: Span, data: Span, length: nat) returns (r: Option<int>)
    requires region.start > 0
    modifies code
    ensures match r case Some(a) => Highest(region, data, length, a) case None => NoneFits(region, data, length)
  {
    code.start := region.end - length;
    code.end := region.end;
    while Inside(code.Value(), region)
      invariant code.end == code.start + length && code.start <= region.end - length
      invariant forall b :: Fits(region, data, length, b) ==> b <= code.start
      decreases code.start
    {
      if Overlaps(code.Value(), data) {
        code.Move(-1);
      } else {
        return Some(code.start);
      }
    }
    return None;
  }

  /**
    Why the start of a region has to be positive: where nothing fits, the loop comes down to
    address 0, and there another round changes nothing, while above 0 it moves on.
   */
  lemma ZeroStartSticks(region: Span, data: Span, length: nat, a: nat)
    requires region.start == 0 && NoneFits(region, data, length) && a + length <= region.end <= MAX
    ensures var code := Span(a, a + length);
            Inside(code, region) && Overlaps(code, data) && Clamped(code, -1) == if a == 0 then 0 else -1
  {
    assert !Fits(region, data, length, a);
  }

  // ---- the three regions ----------------------------------------------------------------------

  datatype Machine = C64 | C128

  /** range_new_from_int of the constants of machine.c. */
  function Unpacked(high: word, low: word): Span {
    Span(high, if low == 0 then 0x1_0000 else low)
  }

  function Regions(machine: Machine, memtop: word): (rs: seq<Span>)
    ensures |rs| == 3 && forall k :: 0 <= k < 3 ==> 0 < rs[k].start < 0x1_0000 && rs[k].end < 0x1_0000
  {
    match machine
    case C64 => [Unpacked(0x0801, 0x0a00), Unpacked(0xc000, 0xd000).(end := memtop), Unpacked(0x0400, 0x07e7)]
    case C128 => [Unpacked(0x1300, 0x1c01), Unpacked(0x1c01, 0x4000), Unpacked(0x0400, 0x07e7)]
  }

  /** On a C64 the second region ends at the top of lower memory, so code fits only above $c000. */
  lemma SecondRegionOfC64(memtop: word, data: Span, length: nat)
    requires memtop < 0xc000 + length
    ensures NoneFits(Regions(C64, memtop)[1], data, length)
  {
  }

  /** ... and the two values that the KERNAL can report leave it empty. */
  lemma SecondRegionSkipped(memtop: word, data: Span, length: nat)
    requires memtop in {0x8000, 0xa000}
    ensures NoneFits(Regions(C64, memtop)[1], data, length)
  {
    SecondRegionOfC64(memtop, data, length);
  }

  datatype ServerType = RAM | ROM

  datatype ServerInfo = ServerInfo(kind: ServerType, start: word, end: word, memtop: word)

  /** xlink_identify computes the length from the reported range. */
  function Length(server: ServerInfo): word {
    ToWord(server.end - server.start)
  }

  /** The k-th region is the first with a fit, and `a` is the highest address there. */
  ghost predicate Chosen(regions: seq<Span>, data: Span, length: nat, k: nat, a: int)
    requires k < |regions|
  {
    Highest(regions[k], data, length, a) && forall j :: 0 <= j < k ==> NoneFits(regions[j], data, length)
  }

  /** command_server_relocation_possible. */
  method RelocationPossible(machine: Machine, data: Span, server: ServerInfo)
      returns (r: Option<word>, ghost region: nat)
    ensures r.Some? ==> region < 3 && Chosen(Regions(machine, server.memtop), data, Length(server), region, r.value)
    ensures r.None? <==> forall k :: 0 <= k < 3 ==> NoneFits(Regions(machine, server.memtop)[k], data, Length(server))
  {
    var regions := Regions(machine, server.memtop);
    var code := new Range(server.start, server.end);
    var first := SearchRegion(code, regions[0], data, Length(server));
    if first.Some? {
      return Some(first.value), 0;
    }
    var second := SearchRegion(code, regions[1], data, Length(server));
    if second.Some? {
      return Some(second.value), 1;
    }
    var third := SearchRegion(code, regions[2], data, Length(server));
    if third.Some? {
      return Some(third.value), 2;
    }
    return None, 3;
  }

  /** command_requires_server_relocation. */
  predicate RequiresRelocation(data: Span, server: ServerInfo) {
    !server.kind.ROM? && Overlaps(data, Span(server.start, server.end))
  }

  // ---- in plain numbers ----------------------------------------------------------------------------

  /** Two ranges with an address in common. */
  ghost predicate Share(start: int, end: int, start': int, end': int) {
    exists x :: Both(x, start, end, start', end')
  }

  predicate Both(x: int, start: int, end: int, start': int, end': int) {
    start <= x <= end && start' <= x <= end'
  }

  /** Code up to `length` addresses further fits at `a` into one of the areas of the machine. */
  predicate FitsArea(machine: Machine, memtop: word, k: nat, a: int, length: int) {
    match machine
    case C64 =>
      || (k == 0 && 0x0801 <= a && a + length <= 0x0a00)
      || (k == 1 && 0xc000 <= a && a + length <= memtop)
      || (k == 2 && 0x0400 <= a && a + length <= 0x07e7)
    case C128 =>
      || (k == 0 && 0x1300 <= a && a + length <= 0x1c01)
      || (k == 1 && 0x1c01 <= a && a + length <= 0x4000)
      || (k == 2 && 0x0400 <= a && a + length <= 0x07e7)
  }

  /** ... without an address that the data needs. */
  ghost predicate Free(machine: Machine, data: Span, memtop: word, k: nat, a: int, length: int) {
    FitsArea(machine, memtop, k, a, length) && !Share(a, a + length, data.start, data.end)
  }

  ghost predicate NoneFree(machine: Machine, data: Span, memtop: word, length: int) {
    forall k: nat, a: int :: !Free(machine, data, memtop, k, a, length)
  }

  lemma OverlapsShares(a: Span, b: Span)
    requires a.start <= a.end && b.start <= b.end
    ensures Overlaps(a, b) <==> Share(a.start, a.end, b.start, b.end)
  {
    OverlapsIsSharing(a, b);
    if x :| Holds(a, x) && Holds(b, x) {
      assert Both(x, a.start, a.end, b.start, b.end);
    }
    if x :| Both(x, a.start, a.end, b.start, b.end) {
      assert Holds(a, x) && Holds(b, x);
    }
  }

  lemma FreeIsFit(machine: Machine, data: Span, memtop: word, k: nat, a: int, length: nat)
    requires k < 3 && data.start <= data.end
    ensures Fits(Regions(machine, memtop)[k], data, length, a) <==> Free(machine, data, memtop, k, a, length)
  {
    OverlapsShares(Span(a, a + length), data);
  }

  /** The address found: nothing is free in an earlier area, nor higher up in its own. */
  ghost predicate BestFree(machine: Machine, data: Span, memtop: word, length: int, region: nat, address: int) {
    && region < 3 && Free(machine, data, memtop, region, address, length)
    && (forall k: nat, a: int :: k < region ==> !Free(machine, data, memtop, k, a, length))
    && (forall a: int :: Free(machine, data, memtop, region, a, length) ==> a <= address)
  }

  lemma ChosenIsBest(machine: Machine, data: Span, memtop: word, length: nat, region: nat, address: int)
    requires region < 3 && data.start <= data.end
    requires Chosen(Regions(machine, memtop), data, length, region, address)
    ensures BestFree(machine, data, memtop, length, region, address)
  {
    FreeIsFit(machine, data, memtop, region, address, length);
    forall k: nat, a: int | k < region ensures !Free(machine, data, memtop, k, a, length) {
      FreeIsFit(machine, data, memtop, k, a, length);
      assert NoneFits(Regions(machine, memtop)[k], data, length);
    }
    forall a: int | Free(machine, data, memtop, region, a, length) ensures a <= address {
      FreeIsFit(machine, data, memtop, region, a, length);
    }
  }

  lemma NoneIsFree(machine: Machine, data: Span, memtop: word, length: nat)
    requires data.start <= data.end
    requires forall k :: 0 <= k < 3 ==> NoneFits(Regions(machine, memtop)[k], data, length)
    ensures NoneFree(machine, data, memtop, length)
  {
    forall k: nat, a: int ensures !Free(machine, data, memtop, k, a, length) {
      if k < 3 {
        FreeIsFit(machine, data, memtop, k, a, length);
        assert NoneFits(Regions(machine, memtop)[k], data, length);
      }
    }
  }

  /** Some region has room for the server beside the data. */
  ghost predicate SomeRegionFits(machine: Machine, data: Span, server: ServerInfo) {
    !forall k :: 0 <= k < 3 ==> NoneFits(Regions(machine, server.memtop)[k], data, Length(server))
  }

  /**
    The same for proper ranges, in numbers: a ROM server stays; a RAM server moves only if it shares an
    address with the data, and then to the best free place.
   */
  ghost predicate InNumbers(machine: Machine, data: Span, s: ServerInfo, relocates: bool,
                            usable: bool, address: Option<word>, now: Span, region: nat) {
    s.start <= s.end && data.start <= data.end ==>
      if s.kind.ROM? || !Share(data.start, data.end, s.start, s.end) then
        usable && address.None? && now == Span(s.start, s.end)
      else if address.Some? then
        && BestFree(machine, data, s.memtop, s.end - s.start, region, address.value)
        && usable == relocates
        && (usable ==> now == Span(address.value, address.value + (s.end - s.start)))
      else
        !usable && NoneFree(machine, data, s.memtop, s.end - s.start)
  }

  /**
    command_server_usable_after_possible_relocation, given what xlink_identify returns and
    whether xlink_relocate succeeds.  `address` is what xlink_relocate is called with, `now` the
    closed range of a usable server afterwards, the generated code being as long as the server
    reported.
   */
  method UsableAfterPossibleRelocation(machine: Machine, data: Span, identified: Option<ServerInfo>, relocates: bool)
      returns (usable: bool, address: Option<word>, now: Span, ghost region: nat)
    ensures address.Some? <==>
              && identified.Some? && RequiresRelocation(data, identified.value)
              && SomeRegionFits(machine, data, identified.value)
    ensures address.Some? ==>
              var server := identified.value;
              region < 3 && Chosen(Regions(machine, server.memtop), data, Length(server), region, address.value)
    ensures usable <==>
              identified.Some? && (RequiresRelocation(data, identified.value) ==> address.Some? && relocates)
    ensures usable ==>
              var server := identified.value;
              now == if address.Some? then Span(address.value, address.value + Length(server))
                     else Span(server.start, server.end)
    ensures usable && identified.value.kind.RAM? ==> !Overlaps(data, now) && !Overlaps(now, data)
    ensures identified.Some? ==>
              InNumbers(machine, data, identified.value, relocates, usable, address, now, region)
  {
    address, now, region := None, Span(0, 0), 0;
    if identified.None? {
      return false, address, now, region;
    }
    var server := identified.value;
    now := Span(server.start, server.end);
    if server.start <= server.end && data.start <= data.end {
      OverlapsShares(data, now);
    }
    if RequiresRelocation(data, server) {
      address, region := RelocationPossible(machine, data, server);
      if data.start <= data.end {
        if address.Some? {
          ChosenIsBest(machine, data, server.memtop, Length(server), region, address.value);
        } else {
          NoneIsFree(machine, data, server.memtop, Length(server));
        }
      }
      if address.None? || !relocates {
        return false, address, now, region;
      }
      now := Span(address.value, address.value + Length(server));
    }
    return true, address, now, region;
  }
}
