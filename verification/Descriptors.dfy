/**
  The walks over a USB configuration block in LUFA's ConfigDescriptors.c. Memory is a total
  function, because a walk that has used up the block still reads the type byte behind it.
 */
module Descriptors {
  import opened Bytes

  type Memory = nat -> byte

  /** `*BytesRem` and `*CurrConfigLoc`. */
  datatype Cursor = Cursor(rem: nat, loc: nat)

  datatype Verdict = Found | Fail | NotFound

  /** What makes a walk stop at a descriptor. */
  datatype Goal = OfType(t: byte) | OfEither(t: byte, before: byte) | Judged(judge: nat -> Verdict)

  function TypeAt(m: Memory, loc: nat): byte {
    m(loc + 1)
  }

  predicate Meets(m: Memory, goal: Goal, loc: nat) {
    match goal
    case OfType(t) => TypeAt(m, loc) == t
    case OfEither(t, b) => TypeAt(m, loc) == t || TypeAt(m, loc) == b
    case Judged(judge) => judge(loc) != NotFound
  }

  // ---- what a walk reaches ------------------------------------------------------------------------

  /** USB_GetNextDescriptor: the size is cut down to what remains. */
  function Next(m: Memory, c: Cursor): (n: Cursor)
    ensures n.loc + n.rem == c.loc + c.rem
    ensures n.rem < c.rem <==> m(c.loc) != 0 && c.rem != 0
    ensures n == c <==> m(c.loc) == 0 || c.rem == 0
  {
    var size: nat := if c.rem < m(c.loc) then c.rem else m(c.loc);
    Cursor(c.rem - size, c.loc + size)
  }

  function At(m: Memory, c: Cursor, n: nat): Cursor {
    if n == 0 then c else Next(m, At(m, c, n - 1))
  }

  /** After `n` steps the block is used up, or the descriptor behind the last step is wanted. */
  predicate Ends(m: Memory, c: Cursor, goal: Goal, n: nat) {
    At(m, c, n).rem == 0 || (n > 0 && Meets(m, goal, At(m, c, n).loc))
  }

  ghost predicate FirstEnd(m: Memory, c: Cursor, goal: Goal, n: nat) {
    Ends(m, c, goal, n) && forall k :: 0 <= k < n ==> !Ends(m, c, goal, k)
  }

  ghost predicate Terminates(m: Memory, c: Cursor, goal: Goal) {
    exists n: nat :: Ends(m, c, goal, n)
  }

  /** A descriptor of size zero that is not wanted, with nothing before it to end the walk. */
  ghost predicate StuckAt(m: Memory, c: Cursor, goal: Goal, n: nat) {
    && m(At(m, c, n).loc) == 0 && !Meets(m, goal, At(m, c, n).loc)
    && forall k :: 0 <= k <= n ==> !Ends(m, c, goal, k)
  }

  /** Section 9.6 of USB 2.0: no descriptor has size zero. */
  predicate NoneEmpty(m: Memory, c: Cursor)
    decreases c.rem
  {
    c.rem == 0 || (m(c.loc) != 0 && NoneEmpty(m, Next(m, c)))
  }

  /** The block's end never moves. */
  lemma {:induction false} AtKeepsEnd(m: Memory, c: Cursor, n: nat)
    ensures At(m, c, n).loc + At(m, c, n).rem == c.loc + c.rem
    ensures At(m, c, n).loc >= c.loc
  {
    if n > 0 {
      AtKeepsEnd(m, c, n - 1);
    }
  }

  lemma {:induction false} AtAfterNext(m: Memory, c: Cursor, n: nat)
    ensures At(m, Next(m, c), n) == At(m, c, n + 1)
  {
    if n > 0 {
      AtAfterNext(m, c, n - 1);
    }
  }

  lemma {:induction false} StuckStays(m: Memory, c: Cursor, goal: Goal, n: nat, k: nat)
    requires StuckAt(m, c, goal, n) && n <= k
    ensures At(m, c, k) == At(m, c, n) && !Ends(m, c, goal, k)
  {
    if k > n {
      StuckStays(m, c, goal, n, k - 1);
    } else {
      assert !Ends(m, c, goal, n);
    }
  }

  lemma {:induction false} EndsOrSticks(m: Memory, c: Cursor, goal: Goal) returns (n: nat)
    ensures Ends(m, c, goal, n) || StuckAt(m, c, goal, n)
    decreases c.rem
  {
    if c.rem == 0 || m(c.loc) == 0 {
      assert At(m, c, 1) == Next(m, At(m, c, 0)) == c;
      n := if c.rem > 0 && Meets(m, goal, c.loc) then 1 else 0;
    } else {
      var after := Next(m, c);
      assert At(m, c, 1) == Next(m, At(m, c, 0));
      if Meets(m, goal, after.loc) {
        n := 1;
      } else {
        n := EndsOrSticks(m, after, goal);
        AtAfterNext(m, c, n);
        if Ends(m, after, goal, n) {
          n := n + 1;
        } else {
          forall k | 0 <= k <= n + 1 ensures !Ends(m, c, goal, k) {
            if k > 0 {
              AtAfterNext(m, c, k - 1);
              assert !Ends(m, after, goal, k - 1);
            }
          }
          n := n + 1;
        }
      }
    }
  }

  /** A walk runs forever exactly if it meets an unwanted descriptor of size zero. */
  lemma TerminatesUnlessStuck(m: Memory, c: Cursor, goal: Goal)
    ensures Terminates(m, c, goal) <==> !exists n: nat :: StuckAt(m, c, goal, n)
  {
    if n: nat :| StuckAt(m, c, goal, n) {
      forall k: nat ensures !Ends(m, c, goal, k) {
        if k >= n {
          StuckStays(m, c, goal, n, k);
        }
      }
    } else {
      var n := EndsOrSticks(m, c, goal);
    }
  }

  /** Every walk over a block without empty descriptors ends. */
  lemma {:induction false} NoneEmptyTerminates(m: Memory, c: Cursor, goal: Goal)
    requires NoneEmpty(m, c)
    ensures Terminates(m, c, goal)
    decreases c.rem
  {
    if c.rem == 0 {
      assert Ends(m, c, goal, 0);
    } else {
      var after := Next(m, c);
      NoneEmptyTerminates(m, after, goal);
      var n: nat :| Ends(m, after, goal, n);
      AtAfterNext(m, c, n);
      assert Ends(m, c, goal, n + 1);
    }
  }

  lemma {:induction false} NoneEmptyAt(m: Memory, c: Cursor, n: nat)
    requires NoneEmpty(m, c)
    ensures NoneEmpty(m, At(m, c, n))
  {
    if n > 0 {
      NoneEmptyAt(m, c, n - 1);
    }
  }

  /** Over a block without empty descriptors both walks of USB_GetNextDescriptorOfTypeAfter end. */
  lemma AfterTerminates(m: Memory, c: Cursor, t: byte, after: byte)
    requires NoneEmpty(m, c)
    ensures Terminates(m, c, OfType(after))
    ensures forall i: nat :: FirstEnd(m, c, OfType(after), i) ==> Terminates(m, At(m, c, i), OfType(t))
  {
    NoneEmptyTerminates(m, c, OfType(after));
    forall i: nat | FirstEnd(m, c, OfType(after), i) ensures Terminates(m, At(m, c, i), OfType(t)) {
      NoneEmptyAt(m, c, i);
      NoneEmptyTerminates(m, At(m, c, i), OfType(t));
    }
  }

  // ---- over a block of descriptors -------------------------------------------------------------------

  type Block = seq<seq<byte>>

  /**
    The descriptors lie one behind the other at these addresses, the last of which is the end of
    the block; each begins with its length and its type.
   */
  ghost predicate Lies(m: Memory, ds: Block, starts: seq<nat>) {
    && |starts| == |ds| + 1
    && (forall k :: 0 <= k < |ds| ==> 2 <= |ds[k]|)
    && forall k :: 0 <= k < |ds| ==> LiesAt(m, ds[k], starts[k]) && starts[k + 1] == starts[k] + |ds[k]|
  }

  ghost predicate LiesAt(m: Memory, d: seq<byte>, at: nat) {
    d != [] && |d| == d[0] && forall i :: 0 <= i < |d| ==> m(at + i) == d[i]
  }

  /** What a walk sees of it. */
  ghost predicate IsRoute(m: Memory, starts: seq<nat>, types: seq<byte>) {
    && |starts| == |types| + 1
    && forall k :: 0 <= k < |types| ==>
         2 <= m(starts[k]) && starts[k + 1] == starts[k] + m(starts[k]) && TypeAt(m, starts[k]) == types[k]
  }

  function Types(ds: Block): (types: seq<byte>)
    requires forall k :: 0 <= k < |ds| ==> 2 <= |ds[k]|
    ensures |types| == |ds|
    ensures forall k :: 0 <= k < |ds| ==> types[k] == ds[k][1]
  {
    seq(|ds|, k requires 0 <= k < |ds| => ds[k][1])
  }

  lemma RouteOf(m: Memory, ds: Block, starts: seq<nat>)
    requires Lies(m, ds, starts)
    ensures IsRoute(m, starts, Types(ds))
  {
    forall k | 0 <= k < |ds|
      ensures 2 <= |ds[k]| == m(starts[k]) && TypeAt(m, starts[k]) == ds[k][1]
    {
      HeadOf(m, ds[k], starts[k]);
    }
  }

  lemma HeadOf(m: Memory, d: seq<byte>, at: nat)
    requires LiesAt(m, d, at) && 2 <= |d|
    ensures m(at) == |d| && TypeAt(m, at) == d[1]
  {
    assert m(at + 0) == d[0] && m(at + 1) == d[1];
  }

  /** A position at stop `k`. */
  function Stop(starts: seq<nat>, k: nat): (c: Cursor)
    requires k < |starts| && starts[k] <= starts[|starts| - 1]
  {
    Cursor(starts[|starts| - 1] - starts[k], starts[k])
  }

  lemma {:induction false} StartsGrow(m: Memory, starts: seq<nat>, types: seq<byte>, k: nat)
    requires IsRoute(m, starts, types) && k <= |types|
    ensures starts[k] <= starts[|types|] && (k < |types| ==> starts[k + 1] <= starts[|types|])
    decreases |types| - k
  {
    if k < |types| {
      StartsGrow(m, starts, types, k + 1);
    }
  }

  /** Steps lead from stop to stop. */
  lemma {:induction false} StopsAreStarts(m: Memory, starts: seq<nat>, types: seq<byte>, from: nat, n: nat)
    requires IsRoute(m, starts, types) && from + n <= |types|
    ensures starts[from] <= starts[|types|] && starts[from + n] <= starts[|types|]
    ensures At(m, Stop(starts, from), n) == Stop(starts, from + n)
    ensures Stop(starts, from + n).rem == 0 <==> from + n == |types|
  {
    StartsGrow(m, starts, types, from);
    StartsGrow(m, starts, types, from + n);
    if n > 0 {
      StopsAreStarts(m, starts, types, from, n - 1);
      StartsGrow(m, starts, types, from + n - 1);
    }
  }

  /** The first stop behind `from` that is wanted, or the end. */
  ghost predicate FirstWanted(m: Memory, goal: Goal, starts: seq<nat>, from: nat, k: nat) {
    && k < |starts|
    && (if from < |starts| - 1 then from < k else k == from)
    && (forall j :: from < j < k ==> !Meets(m, goal, starts[j]))
    && (k < |starts| - 1 ==> Meets(m, goal, starts[k]))
  }

  lemma NoLater(m: Memory, c: Cursor, goal: Goal, n: nat, bound: nat)
    requires FirstEnd(m, c, goal, n) && Ends(m, c, goal, bound)
    ensures n <= bound && (c.rem == 0 <==> n == 0)
  {
    assert Ends(m, c, goal, 0) <==> c.rem == 0;
  }

  lemma WalkStops(m: Memory, starts: seq<nat>, types: seq<byte>, from: nat, goal: Goal, n: nat)
    requires IsRoute(m, starts, types) && from <= |types| && starts[from] <= starts[|types|]
    requires FirstEnd(m, Stop(starts, from), goal, n)
    ensures FirstWanted(m, goal, starts, from, from + n) && starts[from + n] <= starts[|types|]
    ensures At(m, Stop(starts, from), n) == Stop(starts, from + n)
  {
    StopsAreStarts(m, starts, types, from, |types| - from);
    NoLater(m, Stop(starts, from), goal, n, |types| - from);
    StopsAreStarts(m, starts, types, from, n);
    StopsAreStarts(m, starts, types, from, 0);
    forall j | from < j < from + n ensures !Meets(m, goal, starts[j]) {
      NotBefore(m, starts, types, from, goal, n, j - from);
    }
  }

  lemma NotBefore(m: Memory, starts: seq<nat>, types: seq<byte>, from: nat, goal: Goal, n: nat, k: nat)
    requires IsRoute(m, starts, types) && from + n <= |types| && starts[from] <= starts[|types|]
    requires FirstEnd(m, Stop(starts, from), goal, n) && 0 < k < n
    ensures !Meets(m, goal, starts[from + k])
  {
    StopsAreStarts(m, starts, types, from, k);
    assert !Ends(m, Stop(starts, from), goal, k);
  }

  /** Descriptor `k` is the first behind `from` of one of these types; if there is none, it is the end. */
  ghost predicate FirstOf(types: seq<byte>, from: nat, wanted: set<byte>, k: nat) {
    && k <= |types|
    && (if from < |types| then from < k else k == from)
    && (forall j :: from < j < k ==> types[j] !in wanted)
    && (k < |types| ==> types[k] in wanted)
  }

  /** Where a walk after one or two types ends. */
  lemma WalkFinds(m: Memory, starts: seq<nat>, types: seq<byte>, from: nat, goal: Goal, wanted: set<byte>, n: nat)
    requires IsRoute(m, starts, types) && from <= |types| && starts[from] <= starts[|types|]
    requires FirstEnd(m, Stop(starts, from), goal, n)
    requires match goal case OfType(t) => wanted == {t} case OfEither(t, b) => wanted == {t, b} case Judged(_) => false
    ensures FirstOf(types, from, wanted, from + n) && starts[from + n] <= starts[|types|]
    ensures At(m, Stop(starts, from), n) == Stop(starts, from + n)
  {
    WalkStops(m, starts, types, from, goal, n);
    forall j | from < j < |types| ensures Meets(m, goal, starts[j]) <==> types[j] in wanted {
    }
  }

  /** Every walk over such a block ends. */
  lemma DescriptorsTerminate(m: Memory, ds: Block, starts: seq<nat>, goal: Goal)
    requires Lies(m, ds, starts)
    ensures starts[0] <= starts[|ds|] && Terminates(m, Cursor(starts[|ds|] - starts[0], starts[0]), goal)
  {
    RouteOf(m, ds, starts);
    StopsAreStarts(m, starts, Types(ds), 0, |ds|);
    assert Ends(m, Stop(starts, 0), goal, |ds|);
  }

  /** The block fills what remains. */
  ghost predicate Fills(m: Memory, ds: Block, starts: seq<nat>, rem: nat, loc: nat) {
    Lies(m, ds, starts) && starts[0] == loc && starts[|ds|] == loc + rem
  }

  /** The position stands at descriptor `k`, or at the end of the block. */
  predicate StandsAt(starts: seq<nat>, k: nat, rem: nat, loc: nat) {
    k < |starts| && loc == starts[k] && loc + rem == starts[|starts| - 1]
  }

  lemma FillsStop(m: Memory, ds: Block, starts: seq<nat>, c: Cursor)
    requires Fills(m, ds, starts, c.rem, c.loc)
    ensures IsRoute(m, starts, Types(ds)) && starts[0] <= starts[|ds|] && c == Stop(starts, 0)
  {
    RouteOf(m, ds, starts);
  }

  /** Over every block of descriptors a walk after these types, begun with descriptor 0, ends at the n-th one. */
  ghost predicate FindsInBlocks(m: Memory, from: Cursor, wanted: set<byte>, n: nat, end: Cursor) {
    forall ds: Block, starts: seq<nat> :: Fills(m, ds, starts, from.rem, from.loc) ==>
      FirstOf(Types(ds), 0, wanted, n) && StandsAt(starts, n, end.rem, end.loc)
  }

  lemma FindsInEvery(m: Memory, c: Cursor, goal: Goal, wanted: set<byte>, n: nat)
    requires FirstEnd(m, c, goal, n)
    requires match goal case OfType(t) => wanted == {t} case OfEither(t, b) => wanted == {t, b} case Judged(_) => false
    ensures FindsInBlocks(m, c, wanted, n, At(m, c, n))
  {
    forall ds: Block, starts: seq<nat> | Fills(m, ds, starts, c.rem, c.loc)
      ensures FirstOf(Types(ds), 0, wanted, n) && StandsAt(starts, n, At(m, c, n).rem, At(m, c, n).loc)
    {
      FillsStop(m, ds, starts, c);
      WalkFinds(m, starts, Types(ds), 0, goal, wanted, n);
    }
  }

  /** A block of two: the walk after type 4 ends at address 3 with three bytes left. */
  lemma TwoDescriptors(m: Memory, n: nat)
    requires forall i :: 0 <= i < 6 ==> m(i) == [3, 2, 4, 3, 4, 1][i]
    requires FirstEnd(m, Cursor(6, 0), OfType(4), n)
    ensures n == 1 && At(m, Cursor(6, 0), n) == Cursor(3, 3)
  {
    var ds: Block, starts: seq<nat> := [[3, 2, 4], [3, 4, 1]], [0, 3, 6];
    assert LiesAt(m, ds[0], starts[0]) && LiesAt(m, ds[1], starts[1]);
    assert Fills(m, ds, starts, 6, 0);
    FindsInEvery(m, Cursor(6, 0), OfType(4), {4}, n);
    assert Types(ds)[1] == 4;
  }

  /** ... of a walk that gives up at one of them: then nothing remains there. */
  ghost predicate CutOffInBlocks(m: Memory, from: Cursor, t: byte, before: byte, n: nat, end: Cursor) {
    forall ds: Block, starts: seq<nat> :: Fills(m, ds, starts, from.rem, from.loc) ==>
      && FirstOf(Types(ds), 0, {t, before}, n)
      && (if n < |ds| && ds[n][1] == t then StandsAt(starts, n, end.rem, end.loc)
          else end == Cursor(0, starts[n]))
  }

  lemma CutsOffInEvery(m: Memory, c: Cursor, t: byte, before: byte, n: nat)
    requires FirstEnd(m, c, OfEither(t, before), n)
    ensures var there := At(m, c, n);
            var cut := n > 0 && TypeAt(m, there.loc) != t && TypeAt(m, there.loc) == before;
            CutOffInBlocks(m, c, t, before, n, if cut then Cursor(0, there.loc) else there)
  {
    forall ds: Block, starts: seq<nat> | Fills(m, ds, starts, c.rem, c.loc)
      ensures FirstOf(Types(ds), 0, {t, before}, n) && starts[n] <= starts[|ds|]
      ensures At(m, c, n) == Stop(starts, n) && (n < |ds| ==> n > 0 && TypeAt(m, starts[n]) == ds[n][1])
    {
      FillsStop(m, ds, starts, c);
      WalkFinds(m, starts, Types(ds), 0, OfEither(t, before), {t, before}, n);
    }
  }

  /** ... of the walk that looks for one type behind the first of another. */
  ghost predicate FindsBehindInBlocks(m: Memory, from: Cursor, t: byte, after: byte, n: nat, k: nat, end: Cursor) {
    forall ds: Block, starts: seq<nat> :: Fills(m, ds, starts, from.rem, from.loc) ==>
      && FirstOf(Types(ds), 0, {after}, n) && FirstOf(Types(ds), n, {t}, n + k)
      && StandsAt(starts, n + k, end.rem, end.loc)
  }

  lemma FindsBehindInEvery(m: Memory, c: Cursor, t: byte, after: byte, n: nat, k: nat)
    requires FirstEnd(m, c, OfType(after), n) && FirstEnd(m, At(m, c, n), OfType(t), k)
    ensures FindsBehindInBlocks(m, c, t, after, n, k, At(m, At(m, c, n), k))
  {
    forall ds: Block, starts: seq<nat> | Fills(m, ds, starts, c.rem, c.loc)
      ensures FirstOf(Types(ds), 0, {after}, n) && FirstOf(Types(ds), n, {t}, n + k)
      ensures StandsAt(starts, n + k, At(m, At(m, c, n), k).rem, At(m, At(m, c, n), k).loc)
    {
      FillsStop(m, ds, starts, c);
      WalkFinds(m, starts, Types(ds), 0, OfType(after), {after}, n);
      WalkFinds(m, starts, Types(ds), n, OfType(t), {t}, k);
    }
  }

  /** ... and of the walk with a comparator, which is asked about each descriptor but the first, and the end. */
  ghost predicate JudgedInBlocks(m: Memory, from: Cursor, judge: nat -> Verdict, verdict: Verdict, n: nat,
                                 end: Cursor) {
    forall ds: Block, starts: seq<nat> :: Fills(m, ds, starts, from.rem, from.loc) ==>
      JudgedAt(starts, judge, verdict, n, end)
  }

  ghost predicate JudgedAt(starts: seq<nat>, judge: nat -> Verdict, verdict: Verdict, n: nat, end: Cursor) {
    && n < |starts| && (n == 0 <==> |starts| == 1)
    && (forall j :: 0 < j < n ==> judge(starts[j]) == NotFound)
    && verdict == (if n == 0 then NotFound else judge(starts[n]))
    && (verdict == NotFound ==> n == |starts| - 1)
    && StandsAt(starts, if verdict == Fail then n - 1 else n, end.rem, end.loc)
  }

  lemma JudgedInEvery(m: Memory, c: Cursor, judge: nat -> Verdict, n: nat)
    requires FirstEnd(m, c, Judged(judge), n)
    ensures var verdict := if n > 0 then judge(At(m, c, n).loc) else NotFound;
            JudgedInBlocks(m, c, judge, verdict, n, At(m, c, if verdict == Fail then n - 1 else n))
  {
    var verdict := if n > 0 then judge(At(m, c, n).loc) else NotFound;
    forall ds: Block, starts: seq<nat> | Fills(m, ds, starts, c.rem, c.loc)
      ensures JudgedAt(starts, judge, verdict, n, At(m, c, if verdict == Fail then n - 1 else n))
    {
      FillsStop(m, ds, starts, c);
      JudgedOver(m, starts, Types(ds), judge, n);
    }
  }

  lemma JudgedOver(m: Memory, starts: seq<nat>, types: seq<byte>, judge: nat -> Verdict, n: nat)
    requires IsRoute(m, starts, types) && starts[0] <= starts[|types|]
    requires FirstEnd(m, Stop(starts, 0), Judged(judge), n)
    ensures var c := Stop(starts, 0);
            var verdict := if n > 0 then judge(At(m, c, n).loc) else NotFound;
            JudgedAt(starts, judge, verdict, n, At(m, c, if verdict == Fail then n - 1 else n))
  {
    WalkStops(m, starts, types, 0, Judged(judge), n);
    if n > 0 {
      StopsAreStarts(m, starts, types, 0, n - 1);
    }
    forall j | 0 < j < n ensures judge(starts[j]) == NotFound {
      assert !Meets(m, Judged(judge), starts[j]);
    }
  }

  // ---- the search loops --------------------------------------------------------------------------------

  /** No end so far, in front of the loop's test. */
  ghost predicate Looking(m: Memory, start: Cursor, goal: Goal, n: nat) {
    && (n > 0 ==> !Meets(m, goal, At(m, start, n).loc))
    && forall k :: 0 <= k < n ==> !Ends(m, start, goal, k)
  }

  /** Behind one more step. */
  lemma LookOn(m: Memory, start: Cursor, goal: Goal, n: nat, bound: nat) returns (next: nat)
    requires Looking(m, start, goal, n) && At(m, start, n).rem != 0 && Ends(m, start, goal, bound)
    ensures n < bound && next == n + 1 && At(m, start, next) == Next(m, At(m, start, n))
    ensures if Meets(m, goal, At(m, start, next).loc) then FirstEnd(m, start, goal, next)
            else Looking(m, start, goal, next)
  {
    assert !Ends(m, start, goal, n);
    next := n + 1;
  }

  lemma NothingLeft(m: Memory, start: Cursor, goal: Goal, n: nat)
    requires Looking(m, start, goal, n) && At(m, start, n).rem == 0
    ensures FirstEnd(m, start, goal, n)
  {
  }

  // ---- ConfigDescriptors.c --------------------------------------------------------------------------

  /** The two variables a caller keeps its position in. */
  class Position {
    var rem: nat
    var loc: nat

    function View(): Cursor
      reads this
    {
      Cursor(rem, loc)
    }

    constructor (bytesRem: nat, start: nat)
      ensures View() == Cursor(bytesRem, start)
    {
      rem, loc := bytesRem, start;
    }

    method GetNext(m: Memory)
      modifies this
      ensures View() == Next(m, old(View()))
      ensures loc + rem == old(loc + rem) && rem == if old(rem) < m(old(loc)) then 0 else old(rem) - m(old(loc))
    {
      var size: nat := m(loc);
      if rem < size {
        size := rem;
      }
      loc := loc + size;
      rem := rem - size;
    }

    /** USB_GetNextDescriptorOfType; `n` counts the steps. */
    method GetNextOfType(m: Memory, t: byte) returns (ghost n: nat)
      requires Terminates(m, View(), OfType(t))
      modifies this
      ensures FirstEnd(m, old(View()), OfType(t), n) && View() == At(m, old(View()), n)
      ensures FindsInBlocks(m, old(View()), {t}, n, View())
    {
      n := 0;
      ghost var goal := OfType(t);
      ghost var start := View();
      ghost var bound: nat :| Ends(m, start, goal, bound);
      while rem != 0
        invariant View() == At(m, start, n) && Looking(m, start, goal, n)
        decreases bound - n
      {
        n := LookOn(m, start, goal, n, bound);
        GetNext(m);
        if m(loc + 1) == t {
          FindsInEvery(m, start, goal, {t}, n);
          return;
        }
      }
      NothingLeft(m, start, goal, n);
      FindsInEvery(m, start, goal, {t}, n);
    }

    /** USB_GetNextDescriptorOfTypeBefore: the position stays, but nothing remains, at the cut-off. */
    method GetNextOfTypeBefore(m: Memory, t: byte, before: byte) returns (ghost n: nat)
      requires Terminates(m, View(), OfEither(t, before))
      modifies this
      ensures FirstEnd(m, old(View()), OfEither(t, before), n)
      ensures var end := At(m, old(View()), n);
              var cut := n > 0 && TypeAt(m, end.loc) != t && TypeAt(m, end.loc) == before;
              View() == if cut then Cursor(0, end.loc) else end
      ensures CutOffInBlocks(m, old(View()), t, before, n, View())
    {
      n := 0;
      ghost var goal := OfEither(t, before);
      ghost var start := View();
      ghost var bound: nat :| Ends(m, start, goal, bound);
      while rem != 0
        invariant View() == At(m, start, n) && Looking(m, start, goal, n)
        decreases bound - n
      {
        n := LookOn(m, start, goal, n, bound);
        GetNext(m);
        if m(loc + 1) == t {
          CutsOffInEvery(m, start, t, before, n);
          return;
        } else if m(loc + 1) == before {
          rem := 0;
          CutsOffInEvery(m, start, t, before, n);
          return;
        }
      }
      NothingLeft(m, start, goal, n);
      CutsOffInEvery(m, start, t, before, n);
    }

    /** USB_GetNextDescriptorOfTypeAfter: two walks, the second from where the first found its type. */
    method GetNextOfTypeAfter(m: Memory, t: byte, after: byte) returns (ghost n: nat, ghost k: nat)
      requires Terminates(m, View(), OfType(after))
      requires forall i: nat :: FirstEnd(m, View(), OfType(after), i) ==> Terminates(m, At(m, View(), i), OfType(t))
      modifies this
      ensures FirstEnd(m, old(View()), OfType(after), n)
      ensures var there := At(m, old(View()), n);
              FirstEnd(m, there, OfType(t), k) && View() == At(m, there, k)
      ensures FindsBehindInBlocks(m, old(View()), t, after, n, k, View())
    {
      ghost var start := View();
      n := GetNextOfType(m, after);
      k := 0;
      if rem != 0 {
        k := GetNextOfType(m, t);
      }
      FindsBehindInEvery(m, start, t, after, n, k);
    }

    /** USB_GetNextDescriptorComp; NotFound stands for its EndOfDescriptor. */
    method GetNextComp(m: Memory, judge: nat -> Verdict) returns (verdict: Verdict, ghost n: nat)
      requires Terminates(m, View(), Judged(judge))
      modifies this
      ensures FirstEnd(m, old(View()), Judged(judge), n)
      ensures verdict == if n > 0 then judge(At(m, old(View()), n).loc) else NotFound
      ensures View() == At(m, old(View()), if verdict == Fail then n - 1 else n)
      ensures JudgedInBlocks(m, old(View()), judge, verdict, n, View())
    {
      n := 0;
      ghost var goal := Judged(judge);
      ghost var start := View();
      ghost var bound: nat :| Ends(m, start, goal, bound);
      while rem != 0
        invariant View() == At(m, start, n) && Looking(m, start, goal, n)
        decreases bound - n
      {
        n := LookOn(m, start, goal, n, bound);
        var prevLoc, prevRem := loc, rem;
        GetNext(m);
        verdict := judge(loc);
        if verdict != NotFound {
          if verdict == Fail {
            loc, rem := prevLoc, prevRem;
          }
          JudgedInEvery(m, start, judge, n);
          return;
        }
      }
      verdict := NotFound;
      NothingLeft(m, start, goal, n);
      JudgedInEvery(m, start, judge, n);
    }
  }

  lemma EndsEither(m: Memory, c: Cursor, t: byte, before: byte, k: nat)
    requires Ends(m, c, OfType(t), k)
    ensures Ends(m, c, OfEither(t, before), k)
  {
  }

  /**
    The walk with a cut-off finds just what the plain walk finds, unless the cut-off comes first:
    then nothing remains.
   */
  lemma BeforeRefinesOfType(m: Memory, c: Cursor, t: byte, before: byte, n: nat, k: nat)
    requires FirstEnd(m, c, OfEither(t, before), n) && FirstEnd(m, c, OfType(t), k)
    ensures n <= k
    ensures n < k ==> n > 0 && TypeAt(m, At(m, c, n).loc) == before != t && At(m, c, n).rem != 0
    ensures n == k && n > 0 && At(m, c, n).rem != 0 ==> TypeAt(m, At(m, c, n).loc) == t
  {
    EndsEither(m, c, t, before, k);
    if n < k {
      assert !Ends(m, c, OfType(t), n);
    }
  }
}
