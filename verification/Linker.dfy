/**
  The relocating linker of tools/make-server.c.

  One program is assembled at $0101, $0102 and $0201 (Makefile:123-129).  The tool
  compares the three images byte by byte, infers a relocation table, and prints a C
  function that copies the first image and patches it for any load address.
 */
module Linker {
  import opened Bytes

  const BASE := 0x0101
  const LOW := 0x0102
  const HIGH := 0x0201

  /** What the assembler was given: constants, and the two halves of origin-relative addresses. */
  datatype Cell = Literal(value: byte) | LowRef(offset: word) | HighRef(offset: word)

  function CellAt(c: Cell, origin: int): byte {
    match c
    case Literal(v) => v
    case LowRef(d) => Lo(origin + d)
    case HighRef(d) => Hi(origin + d)
  }

  function Assemble(t: seq<Cell>, origin: int): (image: seq<byte>)
    ensures |image| == |t|
    ensures forall i :: 0 <= i < |t| ==> image[i] == CellAt(t[i], origin)
  {
    seq(|t|, i requires 0 <= i < |t| => CellAt(t[i], origin))
  }

  // ---- increasing lists of marked positions -------------------------------------------

  function Positions(marks: seq<bool>): (ps: seq<nat>) {
    if marks == [] then []
    else
      var init := Positions(marks[..|marks| - 1]);
      if marks[|marks| - 1] then init + [|marks| - 1] else init
  }

  ghost predicate Increasing(ps: seq<nat>) {
    forall i, j :: 0 <= i < j < |ps| ==> ps[i] < ps[j]
  }

  lemma {:induction false} PositionsSpec(marks: seq<bool>)
    ensures Increasing(Positions(marks))
    ensures forall k :: 0 <= k < |Positions(marks)| ==> Positions(marks)[k] < |marks| && marks[Positions(marks)[k]]
    ensures forall p :: 0 <= p < |marks| && marks[p] ==> p in Positions(marks)
  {
    if marks != [] {
      PositionsSpec(marks[..|marks| - 1]);
    }
  }

  /** Adding marks adds positions, one for each. */
  lemma {:induction false} PositionsMore(few: seq<bool>, many: seq<bool>)
    requires |few| == |many|
    requires forall i :: 0 <= i < |few| && few[i] ==> many[i]
    ensures |Positions(few)| <= |Positions(many)|
    ensures |Positions(few)| == |Positions(many)| ==> few == many
  {
    if few != [] {
      var n := |few| - 1;
      PositionsMore(few[..n], many[..n]);
      assert few == few[..n] + [few[n]] && many == many[..n] + [many[n]];
    }
  }

  function Differs(a: seq<byte>, b: seq<byte>): (marks: seq<bool>)
    requires |a| == |b|
    ensures |marks| == |a|
    ensures forall i :: 0 <= i < |a| ==> marks[i] == (a[i] != b[i])
  {
    seq(|a|, i requires 0 <= i < |a| => a[i] != b[i])
  }

  // ---- make-server.c: the two scans -----------------------------------------------------

  datatype Entry = Entry(delta: word, lsb: word, msb: word)

  const NO_MSB: word := 0xffff

  datatype Outcome = Linked(table: seq<Entry>) | SizeMismatch | TableOverrun

  function BitOr(x: nat, y: nat): nat {
    if x == 0 || y == 0 then x + y
    else 2 * BitOr(x / 2, y / 2) + if x % 2 == 1 || y % 2 == 1 then 1 else 0
  }

  /** `base[i]-1` stored in an unsigned short. */
  function FirstDelta(b: byte): word {
    ToWord(b - 1)
  }

  /** `((base[i]-1) << 8) | addr->delta` stored in an unsigned short. */
  function SecondDelta(b: byte, delta: word): word {
    ToWord(BitOr((b - 1) % 0x100, Hi(delta)) * 0x100 + Lo(delta))
  }

  lemma {:induction false} BitOrOnes(x: nat, ones: nat)
    requires x <= ones && ones in {1, 3, 7, 15, 31, 63, 127, 255}
    ensures BitOr(x, ones) == ones
  {
    if ones > 1 && x > 0 {
      BitOrOnes(x / 2, ones / 2);
    }
  }

  /** The table that the two scans leave behind. */
  ghost predicate IsTable(table: seq<Entry>, base: seq<byte>, low: seq<byte>, high: seq<byte>)
    requires |base| == |low| == |high| <= 0xffff
  {
    var ls, hs := Positions(Differs(base, low)), Positions(Differs(base, high));
    && |table| == |ls|
    && |hs| <= |ls|
    && forall k :: 0 <= k < |table| ==>
         && table[k].lsb == ls[k] < |base|
         && (k < |hs| ==>
               hs[k] < |base| && table[k].msb == hs[k]
               && table[k].delta == SecondDelta(base[hs[k]], FirstDelta(base[ls[k]])))
         && (k >= |hs| ==> table[k].msb == NO_MSB && table[k].delta == FirstDelta(base[ls[k]]))
  }

  /** The first scan opens an entry for every byte that differs. */
  method ScanLow(base: seq<byte>, low: seq<byte>) returns (table: seq<Entry>)
    requires |base| == |low| <= 0xffff
    ensures var ls := Positions(Differs(base, low));
            && |table| == |ls|
            && forall k :: 0 <= k < |table| ==>
                 ls[k] < |base| && table[k] == Entry(FirstDelta(base[ls[k]]), ls[k], NO_MSB)
  {
    ghost var marks := Differs(base, low);
    ghost var ls := Positions(marks);
    PositionsSpec(marks);
    table := [];
    for i := 0 to |base|
      invariant |table| <= |ls| && Positions(marks[..i]) == ls[..|table|]
      invariant forall k :: 0 <= k < |table| ==>
                  ls[k] < |base| && table[k] == Entry(FirstDelta(base[ls[k]]), ls[k], NO_MSB)
    {
      PositionsStep(marks, i);
      if base[i] != low[i] {
        table := table + [Entry(FirstDelta(base[i]), i, NO_MSB)];
      }
    }
    assert marks[..|base|] == marks;
  }

  /** The second scan completes the entries in order, and must not find more bytes than those. */
  method ScanHigh(base: seq<byte>, high: seq<byte>, first: seq<Entry>) returns (r: Outcome)
    requires |base| == |high| <= 0xffff
    ensures !r.SizeMismatch? && (r.TableOverrun? <==> |Positions(Differs(base, high))| > |first|)
    ensures r.Linked? ==> IsCompleted(r.table, first, base, Positions(Differs(base, high)))
  {
    ghost var marks := Differs(base, high);
    ghost var hs := Positions(marks);
    PositionsSpec(marks);
    var table, index := first, 0;
    for i := 0 to |base|
      invariant |table| == |first| && index <= |table| && index <= |hs|
      invariant Positions(marks[..i]) == hs[..index]
      invariant forall k :: 0 <= k < index ==>
                  hs[k] < |base|
                  && table[k] == Entry(SecondDelta(base[hs[k]], first[k].delta), first[k].lsb, hs[k])
      invariant forall k :: index <= k < |table| ==> table[k] == first[k]
    {
      PositionsStep(marks, i);
      if base[i] != high[i] {
        if index >= |table| {
          return TableOverrun;
        }
        var addr := table[index];
        table := table[index := Entry(SecondDelta(base[i], addr.delta), addr.lsb, i)];
        index := index + 1;
      }
    }
    assert marks[..|base|] == marks;
    return Linked(table);
  }

  ghost predicate IsCompleted(table: seq<Entry>, first: seq<Entry>, base: seq<byte>, hs: seq<nat>) {
    && |hs| <= |table| == |first|
    && (forall k :: 0 <= k < |hs| ==>
          hs[k] < |base| <= 0xffff
          && table[k] == Entry(SecondDelta(base[hs[k]], first[k].delta), first[k].lsb, hs[k]))
    && forall k :: |hs| <= k < |table| ==> table[k] == first[k]
  }

  method Infer(base: seq<byte>, low: seq<byte>, high: seq<byte>) returns (r: Outcome)
    requires |base| <= 0xffff
    ensures r.SizeMismatch? <==> |base| != |low| || |base| != |high|
    ensures |base| == |low| == |high| ==>
              (r.TableOverrun? <==> |Positions(Differs(base, high))| > |Positions(Differs(base, low))|)
    ensures r.Linked? ==> IsTable(r.table, base, low, high)
  {
    if |base| != |low| || |base| != |high| {
      return SizeMismatch;
    }
    var table := ScanLow(base, low);
    r := ScanHigh(base, high, table);
  }

  lemma PositionsStep(marks: seq<bool>, i: nat)
    requires i < |marks|
    ensures Positions(marks[..i + 1]) == Positions(marks[..i]) + if marks[i] then [i] else []
    ensures Positions(marks[..i + 1]) <= Positions(marks)
  {
    var m := marks[..i + 1];
    assert m[..|m| - 1] == marks[..i] && m[|m| - 1] == marks[i];
    assert Positions(m) == Positions(marks[..i]) + if marks[i] then [i] else [];
    PositionsPrefix(marks, i + 1);
  }

  lemma {:induction false} PositionsPrefix(marks: seq<bool>, i: nat)
    requires i <= |marks|
    ensures Positions(marks[..i]) <= Positions(marks)
    decreases |marks|
  {
    if i == |marks| {
      assert marks[..i] == marks;
    } else {
      var init := marks[..|marks| - 1];
      assert init[..i] == marks[..i];
      PositionsPrefix(init, i);
    }
  }

  // ---- the emitted function xlink_server_<name> -------------------------------------------

  datatype Server = Image(bytes: array<byte>) | OutOfMemory | BadStore

  /** The stores of the first `k` table entries. */
  function Patched(code: seq<byte>, table: seq<Entry>, address: word, k: nat): (image: seq<byte>)
    requires k <= |table|
    requires forall j :: 0 <= j < k ==> table[j].lsb < |code| && table[j].msb < |code|
    ensures |image| == |code|
  {
    if k == 0 then code
    else
      var dest := address + table[k - 1].delta;
      Patched(code, table, address, k - 1)[table[k - 1].lsb := Lo(dest)][table[k - 1].msb := Hi(dest)]
  }

  ghost predicate InBounds(table: seq<Entry>, size: nat) {
    forall k :: 0 <= k < |table| ==> table[k].lsb < size && table[k].msb < size
  }

  method Instantiate(code: seq<byte>, table: seq<Entry>, address: word) returns (r: Server)
    ensures r.OutOfMemory? <==> address + |code| > 0x1_0000
    ensures address + |code| <= 0x1_0000 ==> (r.BadStore? <==> !InBounds(table, |code|))
    ensures r.Image? ==> fresh(r.bytes) && r.bytes[..] == Patched(code, table, address, |table|)
  {
    if address + |code| > 0x1_0000 {
      return OutOfMemory;
    }
    var result := new byte[|code|](_ => 0);
    for i := 0 to |code|
      invariant forall k :: 0 <= k < i ==> result[k] == code[k]
    {
      result[i] := code[i];
    }
    assert result[..] == code;
    for k := 0 to |table|
      invariant forall j :: 0 <= j < k ==> table[j].lsb < |code| && table[j].msb < |code|
      invariant result[..] == Patched(code, table, address, k)
    {
      if table[k].lsb >= |code| || table[k].msb >= |code| {
        return BadStore;
      }
      ghost var before: seq<byte> := result[..];
      var dest := ToWord(address + table[k].delta);
      HalvesOfWord(address + table[k].delta);
      result[table[k].lsb] := Lo(dest);
      result[table[k].msb] := Hi(dest);
      assert result[..] == before[table[k].lsb := Lo(dest)][table[k].msb := Hi(dest)];
    }
    return Image(result);
  }

  // ---- when the scheme is right --------------------------------------------------------------

  function LowMarks(t: seq<Cell>): (marks: seq<bool>)
    ensures |marks| == |t| && forall i :: 0 <= i < |t| ==> marks[i] == t[i].LowRef?
  {
    seq(|t|, i requires 0 <= i < |t| => t[i].LowRef?)
  }

  function HighMarks(t: seq<Cell>): (marks: seq<bool>)
    ensures |marks| == |t| && forall i :: 0 <= i < |t| ==> marks[i] == t[i].HighRef?
  {
    seq(|t|, i requires 0 <= i < |t| => t[i].HighRef?)
  }

  /** As many low as high halves. */
  ghost predicate Balanced(t: seq<Cell>) {
    |Positions(LowMarks(t))| == |Positions(HighMarks(t))|
  }

  /**
    A low and a high half agree on the low byte of their offsets, and that byte carries in
    none of the three assemblies; $ffff is harmless because the -1 wraps with it.
   */
  predicate Pairs(low: word, high: word) {
    && Lo(low) == Lo(high)
    && Lo(high) != 0xfe
    && (Lo(high) == 0xff ==> high == 0xffff)
  }

  /** The k-th low half pairs with the k-th high half. */
  ghost predicate Linkable(t: seq<Cell>) {
    var ls, hs := Positions(LowMarks(t)), Positions(HighMarks(t));
    && |ls| == |hs|
    && forall k :: 0 <= k < |ls| ==>
         && ls[k] < |t| && t[ls[k]].LowRef?
         && hs[k] < |t| && t[hs[k]].HighRef?
         && Pairs(t[ls[k]].offset, t[hs[k]].offset)
  }

  ghost predicate TableOf(table: seq<Entry>, t: seq<Cell>)
    requires |t| <= 0xffff
  {
    IsTable(table, Assemble(t, BASE), Assemble(t, LOW), Assemble(t, HIGH))
  }

  /** Every store stays inside the image, and patching for any address is assembling for it. */
  ghost predicate Relocates(table: seq<Entry>, t: seq<Cell>) {
    && InBounds(table, |t|)
    && forall a: word :: a + |t| <= 0x1_0000 ==>
         Patched(Assemble(t, BASE), table, a, |table|) == Assemble(t, a)
  }

  /** Which cells the scans see: the low scan also sees a high half that carries at $0102. */
  lemma ScanMarks(t: seq<Cell>)
    ensures Differs(Assemble(t, BASE), Assemble(t, HIGH)) == HighMarks(t)
    ensures forall i :: 0 <= i < |t| ==>
              (Differs(Assemble(t, BASE), Assemble(t, LOW))[i] <==>
               t[i].LowRef? || (t[i].HighRef? && Lo(t[i].offset) == 0xfe))
  {
    forall i | 0 <= i < |t|
      ensures Assemble(t, BASE)[i] != Assemble(t, HIGH)[i] <==> t[i].HighRef?
      ensures Assemble(t, BASE)[i] != Assemble(t, LOW)[i] <==>
              t[i].LowRef? || (t[i].HighRef? && Lo(t[i].offset) == 0xfe)
    {
      ScanCell(t[i]);
    }
  }

  lemma ScanCell(c: Cell)
    ensures CellAt(c, BASE) != CellAt(c, HIGH) <==> c.HighRef?
    ensures CellAt(c, BASE) != CellAt(c, LOW) <==> c.LowRef? || (c.HighRef? && Lo(c.offset) == 0xfe)
  {
    if !c.Literal? {
      ScanOffset(c.offset, BASE + c.offset, LOW + c.offset, HIGH + c.offset);
    }
  }

  lemma ScanOffset(x: word, base: nat, low: nat, high: nat)
    requires base == BASE + x && low == LOW + x && high == HIGH + x
    ensures Lo(base) != Lo(low) && Lo(base) == Lo(high) && Hi(base) != Hi(high)
    ensures Hi(base) != Hi(low) <==> Lo(x) == 0xfe
  {
    SplitWord(x);
    ScanHalves(x, base, low, high, Hi(x), Lo(x));
  }

  lemma ScanHalves(x: word, base: nat, low: nat, high: nat, q: byte, r: byte)
    requires x == Word(r, q) && base == BASE + x && low == LOW + x && high == HIGH + x
    ensures Lo(base) != Lo(low) && Lo(base) == Lo(high) && Hi(base) != Hi(high)
    ensures Hi(base) != Hi(low) <==> r == 0xfe
  {
    var d, s := if r == 0xff then q + 2 else q + 1, if r == 0xff then 0 else r + 1;
    assert base == 0x100 * d + s;
    HighOf(base, d, s);
    HighOf(high, d + 1, s);
    if r == 0xfe {
      HighOf(low, d + 1, 0);
    } else {
      HighOf(low, d, s + 1);
    }
  }

  /** What the second scan makes of the two values the first scan can leave. */
  lemma SecondDeltaIs(b: byte, delta: word)
    requires delta < 0x100 || delta == 0xffff
    ensures SecondDelta(b, delta) == if delta == 0xffff then 0xffff else ((b - 1) % 0x100) * 0x100 + delta
  {
    var h := (b - 1) % 0x100;
    if delta == 0xffff {
      assert Hi(delta) == 0xff && Lo(delta) == 0xff;
      BitOrOnes(h, 0xff);
    } else {
      assert Hi(delta) == 0 && Lo(delta) == delta;
      assert BitOr(h, 0) == h;
    }
  }

  /** The two recorded bytes give back the offset of the high half exactly for a good pair. */
  lemma DeltaOfPair(x: word, y: word)
    requires Lo(y) != 0xfe
    ensures SecondDelta(Hi(BASE + y), FirstDelta(Lo(BASE + x))) == y <==> Pairs(x, y)
  {
    BaseLow(x);
    BaseHigh(y);
    DeltaOfHalves(x, y, FirstDelta(Lo(BASE + x)), (Hi(BASE + y) - 1) % 0x100, Hi(BASE + y));
  }

  /** `h` is the high byte less one; it is only lost where the low byte carries. */
  lemma DeltaOfHalves(x: word, y: word, first: word, h: byte, b: byte)
    requires Lo(y) != 0xfe && h == (b - 1) % 0x100
    requires first == if Lo(x) == 0xff then 0xffff else Lo(x)
    requires h == if Lo(y) == 0xff then (Hi(y) + 1) % 0x100 else Hi(y)
    ensures SecondDelta(b, first) == y <==> Pairs(x, y)
  {
    SecondDeltaIs(b, first);
    SplitWord(y);
    if Lo(x) != 0xff {
      WordIs(h, Lo(x), y, Hi(y), Lo(y));
    }
  }

  /** Two words are equal exactly if their halves are. */
  lemma WordIs(h: byte, l: byte, y: word, hi: byte, lo: byte)
    requires y == hi * 0x100 + lo
    ensures h * 0x100 + l == y <==> h == hi && l == lo
  {
  }

  /** The -1 of the tool undoes the base origin $0101 unless the low byte carries. */
  lemma BaseLow(x: word)
    ensures FirstDelta(Lo(BASE + x)) == if Lo(x) == 0xff then 0xffff else Lo(x)
  {
    var q, r := x / 0x100, Lo(x);
    assert x == 0x100 * q + r;
    if r == 0xff {
      assert BASE + x == 0x100 * (q + 2);
    } else {
      assert BASE + x == 0x100 * (q + 1) + (r + 1);
    }
  }

  lemma BaseHigh(x: word)
    ensures (Hi(BASE + x) - 1) % 0x100 == if Lo(x) == 0xff then (Hi(x) + 1) % 0x100 else Hi(x)
  {
    SplitWord(x);
    HighLessOne(x, Hi(x), Lo(x), BASE + x);
  }

  lemma HighLessOne(x: word, q: byte, r: byte, n: nat)
    requires x == Word(r, q) && n == BASE + x
    ensures (Hi(n) - 1) % 0x100 == if r == 0xff then (q + 1) % 0x100 else q
  {
    if r == 0xff {
      HighOf(n, q + 2, 0);
      OneLess(q + 1);
    } else {
      HighOf(n, q + 1, r + 1);
      OneLess(q);
    }
  }

  lemma HighOf(n: nat, q: nat, r: byte)
    requires n == 0x100 * q + r
    ensures Hi(n) == q % 0x100
  {
  }

  lemma OneLess(q: nat)
    ensures ((q + 1) % 0x100 - 1) % 0x100 == q % 0x100
  {
    var d, r := q / 0x100, q % 0x100;
    assert q == 0x100 * d + r;
    assert q + 1 == if r == 0xff then 0x100 * (d + 1) else 0x100 * d + (r + 1);
  }

  /** Different offsets give different high bytes at some origin up to 255. */
  lemma CarryTells(x: word, y: word) returns (a: word)
    requires x != y
    ensures a <= 0xff && Hi(a + x) != Hi(a + y)
  {
    if Hi(x) != Hi(y) {
      a := 0;
    } else {
      a := SameHighTells(x, y);
    }
  }

  lemma SameHighTells(x: word, y: word) returns (a: word)
    requires x != y && Hi(x) == Hi(y)
    ensures a <= 0xff && Hi(a + x) != Hi(a + y)
  {
    SplitWord(x);
    SplitWord(y);
    a := CarryBetween(x, y, Hi(x), Lo(x), Lo(y));
  }

  lemma CarryBetween(x: word, y: word, q: byte, l: byte, h: byte) returns (a: word)
    requires x == Word(l, q) && y == Word(h, q) && x != y
    ensures a <= 0xff && Hi(a + x) != Hi(a + y)
  {
    if l < h {
      a := 0x100 - h;
      HighOf(a + y, q + 1, 0);
      HighOf(a + x, q, a + l);
    } else {
      a := 0x100 - l;
      HighOf(a + x, q + 1, 0);
      HighOf(a + y, q, a + h);
    }
  }

  ghost predicate AllApart(table: seq<Entry>, n: nat)
    requires n <= |table|
  {
    forall j, k :: 0 <= j < n && 0 <= k < n ==>
      table[j].lsb != table[k].msb
      && (j != k ==> table[j].lsb != table[k].lsb && table[j].msb != table[k].msb)
  }

  /** `image` is `code` with the stores of the first `n` entries, none overwriting another. */
  ghost predicate IsPatch(image: seq<byte>, code: seq<byte>, table: seq<Entry>, a: word, n: nat)
    requires n <= |table| && InBounds(table, |code|)
  {
    && |image| == |code|
    && (forall k :: 0 <= k < n ==>
          && image[table[k].lsb] == Lo(a + table[k].delta)
          && image[table[k].msb] == Hi(a + table[k].delta))
    && (forall p :: 0 <= p < |code| && (forall k :: 0 <= k < n ==> table[k].lsb != p && table[k].msb != p) ==>
          image[p] == code[p])
  }

  lemma {:induction false} PatchedIsPatch(code: seq<byte>, table: seq<Entry>, a: word, n: nat)
    requires n <= |table| && InBounds(table, |code|) && AllApart(table, n)
    ensures IsPatch(Patched(code, table, a, n), code, table, a, n)
  {
    if n > 0 {
      ApartFewer(table, n);
      PatchedIsPatch(code, table, a, n - 1);
      PatchOnce(Patched(code, table, a, n - 1), Patched(code, table, a, n), code, table, a, n);
    }
  }

  lemma ApartFewer(table: seq<Entry>, n: nat)
    requires 0 < n <= |table| && AllApart(table, n)
    ensures AllApart(table, n - 1)
  {
  }

  lemma PatchOnce(before: seq<byte>, after: seq<byte>, code: seq<byte>, table: seq<Entry>, a: word, n: nat)
    requires 0 < n <= |table| && InBounds(table, |code|) && AllApart(table, n)
    requires IsPatch(before, code, table, a, n - 1)
    requires var e := table[n - 1];
             after == before[e.lsb := Lo(a + e.delta)][e.msb := Hi(a + e.delta)]
    ensures IsPatch(after, code, table, a, n)
  {
  }

  /** What the scans record for a template none of whose high halves carries at $0102. */
  lemma TableWithoutCarry(t: seq<Cell>, table: seq<Entry>, ls: seq<nat>, hs: seq<nat>)
    requires |t| <= 0xffff && TableOf(table, t) && Balanced(t)
    requires forall i :: 0 <= i < |t| && t[i].HighRef? ==> Lo(t[i].offset) != 0xfe
    requires ls == Positions(LowMarks(t)) && hs == Positions(HighMarks(t))
    ensures |table| == |ls| == |hs|
    ensures forall k :: 0 <= k < |table| ==> Records(table[k], t, ls[k], hs[k])
    ensures InBounds(table, |t|) && AllApart(table, |table|)
  {
    ScanMarksWithoutCarry(t);
    PositionsSpec(LowMarks(t));
    PositionsSpec(HighMarks(t));
    forall k | 0 <= k < |table| ensures Records(table[k], t, ls[k], hs[k]) {
      EntryRecords(t, table[k], ls[k], hs[k]);
    }
    RecordsApart(table, t, ls, hs);
  }

  lemma ScanMarksWithoutCarry(t: seq<Cell>)
    requires forall i :: 0 <= i < |t| && t[i].HighRef? ==> Lo(t[i].offset) != 0xfe
    ensures Differs(Assemble(t, BASE), Assemble(t, LOW)) == LowMarks(t)
    ensures Differs(Assemble(t, BASE), Assemble(t, HIGH)) == HighMarks(t)
  {
    ScanMarks(t);
  }

  lemma EntryRecords(t: seq<Cell>, e: Entry, l: nat, h: nat)
    requires l < |t| <= 0xffff && h < |t| && t[l].LowRef? && t[h].HighRef? && Lo(t[h].offset) != 0xfe
    requires e == Entry(SecondDelta(Assemble(t, BASE)[h], FirstDelta(Assemble(t, BASE)[l])), l, h)
    ensures Records(e, t, l, h)
  {
    DeltaOfPair(t[l].offset, t[h].offset);
  }

  lemma RecordsApart(table: seq<Entry>, t: seq<Cell>, ls: seq<nat>, hs: seq<nat>)
    requires |table| == |ls| == |hs| && Increasing(ls) && Increasing(hs)
    requires forall k :: 0 <= k < |table| ==> Records(table[k], t, ls[k], hs[k])
    ensures AllApart(table, |table|)
  {
  }

  /** Entry `e` patches the low half at `l` and the high half at `h`. */
  ghost predicate Records(e: Entry, t: seq<Cell>, l: nat, h: nat) {
    && e.lsb == l < |t| && t[l].LowRef?
    && e.msb == h < |t| && t[h].HighRef?
    && (e.delta == t[h].offset <==> Pairs(t[l].offset, t[h].offset))
  }

  lemma LinkableHasNoCarry(t: seq<Cell>, i: nat)
    requires Linkable(t) && i < |t| && t[i].HighRef?
    ensures Lo(t[i].offset) != 0xfe
  {
    PositionsSpec(HighMarks(t));
    var hs := Positions(HighMarks(t));
    assert i in hs;
    var k :| 0 <= k < |hs| && hs[k] == i;
    assert Pairs(t[Positions(LowMarks(t))[k]].offset, t[hs[k]].offset);
  }

  /** A linkable template yields a table that relocates it to every address. */
  lemma LinkableRelocates(t: seq<Cell>, table: seq<Entry>)
    requires |t| <= 0xffff && TableOf(table, t) && Linkable(t)
    ensures Relocates(table, t)
  {
    forall i | 0 <= i < |t| && t[i].HighRef? ensures Lo(t[i].offset) != 0xfe {
      LinkableHasNoCarry(t, i);
    }
    TableWithoutCarry(t, table, Positions(LowMarks(t)), Positions(HighMarks(t)));
    forall a: word | a + |t| <= 0x1_0000
      ensures Patched(Assemble(t, BASE), table, a, |table|) == Assemble(t, a)
    {
      LinkableRelocatesTo(t, table, a);
    }
  }

  lemma LinkableRelocatesTo(t: seq<Cell>, table: seq<Entry>, a: word)
    requires |t| <= 0xffff && TableOf(table, t) && Linkable(t)
    requires forall i :: 0 <= i < |t| && t[i].HighRef? ==> Lo(t[i].offset) != 0xfe
    requires InBounds(table, |t|)
    ensures Patched(Assemble(t, BASE), table, a, |table|) == Assemble(t, a)
  {
    var ls, hs := Positions(LowMarks(t)), Positions(HighMarks(t));
    TableWithoutCarry(t, table, ls, hs);
    PatchedIsPatch(Assemble(t, BASE), table, a, |table|);
    PositionsSpec(LowMarks(t));
    PositionsSpec(HighMarks(t));
    var image := Patched(Assemble(t, BASE), table, a, |table|);
    forall p | 0 <= p < |t| ensures image[p] == Assemble(t, a)[p] {
      PatchedCell(t, table, ls, hs, a, image, Assemble(t, BASE), p);
    }
  }

  lemma PatchedCell(t: seq<Cell>, table: seq<Entry>, ls: seq<nat>, hs: seq<nat>, a: word,
                    image: seq<byte>, code: seq<byte>, p: nat)
    requires p < |t| == |code| && |table| == |ls| == |hs| && InBounds(table, |code|)
    requires t[p].Literal? ==> code[p] == t[p].value
    requires IsPatch(image, code, table, a, |table|)
    requires forall k :: 0 <= k < |table| ==>
               Records(table[k], t, ls[k], hs[k]) && Pairs(t[ls[k]].offset, t[hs[k]].offset)
    requires t[p].LowRef? ==> p in ls
    requires t[p].HighRef? ==> p in hs
    ensures image[p] == CellAt(t[p], a)
  {
    match t[p]
    case LowRef(_) =>
      var k :| 0 <= k < |ls| && ls[k] == p;
      EntryLands(t, table[k], ls[k], hs[k], a, image);
    case HighRef(_) =>
      var k :| 0 <= k < |hs| && hs[k] == p;
      EntryLands(t, table[k], ls[k], hs[k], a, image);
    case Literal(_) => LiteralKept(t, table, ls, hs, a, image, code, p);
  }

  lemma EntryLands(t: seq<Cell>, e: Entry, l: nat, h: nat, a: word, image: seq<byte>)
    requires Records(e, t, l, h) && Pairs(t[l].offset, t[h].offset) && |image| == |t|
    requires image[e.lsb] == Lo(a + e.delta) && image[e.msb] == Hi(a + e.delta)
    ensures image[l] == CellAt(t[l], a) && image[h] == CellAt(t[h], a)
  {
    EntryPatches(e, t, l, h, a);
  }

  lemma LiteralKept(t: seq<Cell>, table: seq<Entry>, ls: seq<nat>, hs: seq<nat>, a: word,
                    image: seq<byte>, code: seq<byte>, p: nat)
    requires p < |t| == |code| && |table| == |ls| == |hs| && InBounds(table, |code|)
    requires t[p].Literal? && IsPatch(image, code, table, a, |table|)
    requires forall k :: 0 <= k < |table| ==> Records(table[k], t, ls[k], hs[k])
    ensures image[p] == code[p]
  {
    forall k | 0 <= k < |table| ensures table[k].lsb != p && table[k].msb != p {
      assert Records(table[k], t, ls[k], hs[k]);
    }
  }

  lemma EntryPatches(e: Entry, t: seq<Cell>, l: nat, h: nat, a: word)
    requires Records(e, t, l, h) && Pairs(t[l].offset, t[h].offset)
    ensures Lo(a + e.delta) == CellAt(t[l], a)
    ensures Hi(a + e.delta) == CellAt(t[h], a)
  {
    SameLow(t[l].offset, t[h].offset, a);
  }

  lemma SameLow(x: word, y: word, a: word)
    requires Lo(x) == Lo(y)
    ensures Lo(a + x) == Lo(a + y)
  {
    assert a + x == (a + y) + 0x100 * (x / 0x100 - y / 0x100);
  }

  /** If the table relocates a balanced template everywhere, the template was linkable. */
  lemma RelocatesLinkable(t: seq<Cell>, table: seq<Entry>)
    requires |t| + 0xff <= 0x1_0000 && TableOf(table, t) && Balanced(t) && Relocates(table, t)
    ensures Linkable(t)
  {
    var ls, hs := Positions(LowMarks(t)), Positions(HighMarks(t));
    RelocatesNoCarry(t, table);
    TableWithoutCarry(t, table, ls, hs);
    forall k | 0 <= k < |table| ensures Pairs(t[ls[k]].offset, t[hs[k]].offset) {
      RelocatesPairs(t, table, k, ls[k], hs[k]);
    }
    PositionsSpec(LowMarks(t));
    PositionsSpec(HighMarks(t));
  }

  /** An entry without a high half would store outside the image, so the scans see as many
      cells, and then the low scan has seen no high half. */
  lemma RelocatesNoCarry(t: seq<Cell>, table: seq<Entry>)
    requires |t| <= 0xffff && TableOf(table, t) && Balanced(t) && InBounds(table, |t|)
    ensures forall i :: 0 <= i < |t| && t[i].HighRef? ==> Lo(t[i].offset) != 0xfe
  {
    ScanMarks(t);
    var scanned := Differs(Assemble(t, BASE), Assemble(t, LOW));
    FullTable(table, Assemble(t, BASE), Assemble(t, LOW), Assemble(t, HIGH));
    NoCarryIfCounted(t, scanned);
  }

  lemma FullTable(table: seq<Entry>, base: seq<byte>, low: seq<byte>, high: seq<byte>)
    requires |base| == |low| == |high| <= 0xffff && IsTable(table, base, low, high)
    requires InBounds(table, |base|)
    ensures |table| == |Positions(Differs(base, high))|
  {
    if |Positions(Differs(base, high))| < |table| {
      OpenEntry(table, base, low, high, |table| - 1);
    }
  }

  lemma OpenEntry(table: seq<Entry>, base: seq<byte>, low: seq<byte>, high: seq<byte>, k: nat)
    requires |base| == |low| == |high| <= 0xffff && IsTable(table, base, low, high)
    requires |Positions(Differs(base, high))| <= k < |table|
    ensures table[k].msb == NO_MSB
  {
  }

  lemma NoCarryIfCounted(t: seq<Cell>, scanned: seq<bool>)
    requires |scanned| == |t| && |Positions(LowMarks(t))| == |Positions(scanned)|
    requires forall i :: 0 <= i < |t| ==>
               (scanned[i] <==> t[i].LowRef? || (t[i].HighRef? && Lo(t[i].offset) == 0xfe))
    ensures forall i :: 0 <= i < |t| && t[i].HighRef? ==> Lo(t[i].offset) != 0xfe
  {
    PositionsMore(LowMarks(t), scanned);
    assert forall i :: 0 <= i < |t| ==> scanned[i] == LowMarks(t)[i];
  }

  lemma RelocatesPairs(t: seq<Cell>, table: seq<Entry>, k: nat, l: nat, h: nat)
    requires |t| + 0xff <= 0x1_0000 && Relocates(table, t)
    requires k < |table| && Records(table[k], t, l, h) && AllApart(table, |table|)
    ensures Pairs(t[l].offset, t[h].offset)
  {
    if table[k].delta != t[h].offset {
      var a := CarryTells(table[k].delta, t[h].offset);
      RelocatedHigh(t, table, k, l, h, a);
    }
  }

  lemma RelocatedHigh(t: seq<Cell>, table: seq<Entry>, k: nat, l: nat, h: nat, a: word)
    requires a + |t| <= 0x1_0000 && Relocates(table, t)
    requires k < |table| && Records(table[k], t, l, h) && AllApart(table, |table|)
    ensures Hi(a + table[k].delta) == Hi(a + t[h].offset)
  {
    var code, image := Assemble(t, BASE), Assemble(t, a);
    PatchedIsPatch(code, table, a, |table|);
    assert Patched(code, table, a, |table|) == image;
    AssembledHigh(t, h, a);
  }

  lemma AssembledHigh(t: seq<Cell>, h: nat, a: word)
    requires h < |t| && t[h].HighRef?
    ensures Assemble(t, a)[h] == Hi(a + t[h].offset)
  {
  }

  /** The linker is right for a balanced template if and only if the template is linkable. */
  lemma LinkerCorrect(t: seq<Cell>, table: seq<Entry>)
    requires |t| + 0xff <= 0x1_0000 && TableOf(table, t) && Balanced(t)
    ensures Relocates(table, t) <==> Linkable(t)
  {
    if Linkable(t) {
      LinkableRelocates(t, table);
    } else if Relocates(table, t) {
      RelocatesLinkable(t, table);
    }
  }

  /** A reference to offset $fe carries at $0102 and is linked wrongly, the smallest case there is. */
  lemma CarryBreaksLinking(t: seq<Cell>, table: seq<Entry>)
    requires t == [LowRef(0xfe), HighRef(0xfe)] && TableOf(table, t)
    ensures !Relocates(table, t)
  {
    var ls, hs := Positions(LowMarks(t)), Positions(HighMarks(t));
    OneMark(LowMarks(t), 0);
    OneMark(HighMarks(t), 1);
    assert ls[0] == 0 && hs[0] == 1;
    assert !Pairs(t[ls[0]].offset, t[hs[0]].offset);
    LinkerCorrect(t, table);
  }

  /** Without the balance a template can relocate by accident: a lone high half that is its own low half. */
  lemma UnbalancedByAccident(t: seq<Cell>, table: seq<Entry>)
    requires t == [HighRef(0xfefe)] && table == [Entry(0xfefe, 0, 0)]
    ensures TableOf(table, t) && Relocates(table, t) && !Linkable(t)
  {
    LoneTable(Assemble(t, BASE), Assemble(t, LOW), Assemble(t, HIGH), table);
    LoneRelocates(t, table);
    LoneMark(HighMarks(t));
    assert LowMarks(t)[..0] == [];
  }

  lemma LoneRelocates(t: seq<Cell>, table: seq<Entry>)
    requires |t| == |table| == 1 && t[0].HighRef? && table[0] == Entry(t[0].offset, 0, 0)
    ensures Relocates(table, t)
  {
    var base := Assemble(t, BASE);
    forall a: word | a + |t| <= 0x1_0000 ensures Patched(base, table, a, |table|) == Assemble(t, a) {
      PatchedTwice(base, table, a);
      assert Assemble(t, a)[0] == Hi(a + t[0].offset);
    }
  }

  lemma LoneTable(base: seq<byte>, low: seq<byte>, high: seq<byte>, table: seq<Entry>)
    requires base == [0xff] && low == high == [0] && table == [Entry(0xfefe, 0, 0)]
    ensures IsTable(table, base, low, high)
  {
    LoneMark(Differs(base, low));
    LoneMark(Differs(base, high));
    var first := FirstDelta(0xff);
    assert first == 0xfe && Hi(first) == 0;
    assert SecondDelta(0xff, first) == 0xfefe;
  }

  /** Both stores of an entry hit the same byte: the second one counts. */
  lemma PatchedTwice(code: seq<byte>, table: seq<Entry>, a: word)
    requires |code| == |table| == 1 && table[0].lsb == table[0].msb == 0
    ensures Patched(code, table, a, 1) == [Hi(a + table[0].delta)]
  {
    assert Patched(code, table, a, 0) == code;
  }

  lemma LoneMark(marks: seq<bool>)
    requires marks == [true]
    ensures Positions(marks) == [0]
  {
    assert marks[..0] == [];
  }

  lemma OneMark(marks: seq<bool>, k: nat)
    requires k < |marks| == 2 && forall i :: 0 <= i < 2 ==> (marks[i] <==> i == k)
    ensures Positions(marks) == [k]
  {
    assert marks == [marks[0]] + [marks[1]];
    assert Positions(marks[..1][..0]) == [];
  }

  /** For a balanced template the high scan never runs past the table. */
  lemma NoOverrun(t: seq<Cell>)
    requires Balanced(t)
    ensures |Positions(Differs(Assemble(t, BASE), Assemble(t, HIGH)))|
            <= |Positions(Differs(Assemble(t, BASE), Assemble(t, LOW)))|
  {
    ScanMarks(t);
    PositionsMore(LowMarks(t), Differs(Assemble(t, BASE), Assemble(t, LOW)));
  }

  /** A program file: the load address, which is the origin, and the code. */
  function Program(body: seq<Cell>): seq<Cell> {
    [LowRef(0), HighRef(0)] + body
  }

  lemma ProgramHeader(body: seq<Cell>, address: word)
    ensures Assemble(Program(body), address)[0] == Lo(address)
    ensures Assemble(Program(body), address)[1] == Hi(address)
  {
    assert Program(body)[0] == LowRef(0) && Program(body)[1] == HighRef(0);
  }

  /** From source to running address: assemble three times, infer, patch. */
  method MakeServer(body: seq<Cell>, address: word) returns (r: Server)
    requires |Program(body)| <= 0xffff && Linkable(Program(body))
    ensures r.OutOfMemory? <==> address + |body| + 2 > 0x1_0000
    ensures address + |body| + 2 <= 0x1_0000 ==>
              && r.Image? && r.bytes[..] == Assemble(Program(body), address)
              && r.bytes.Length >= 2 && r.bytes[0] == Lo(address) && r.bytes[1] == Hi(address)
  {
    var t := Program(body);
    var base, low, high := Assemble(t, BASE), Assemble(t, LOW), Assemble(t, HIGH);
    NoOverrun(t);
    var linked := Infer(base, low, high);
    LinkableRelocates(t, linked.table);
    r := Instantiate(base, linked.table, address);
    ProgramHeader(body, address);
  }

  /** A reference to offset $1234, its halves side by side, in numbers. */
  lemma OneReference(table: seq<Entry>)
    requires IsTable(table, [0x35, 0x13], [0x36, 0x13], [0x35, 0x14])
    ensures table == [Entry(0x1234, 0, 1)]
  {
    OneScan([0x35, 0x13], [0x36, 0x13], [0x35, 0x14]);
    OneDelta();
  }

  lemma OneScan(base: seq<byte>, low: seq<byte>, high: seq<byte>)
    requires base == [0x35, 0x13] && low == [0x36, 0x13] && high == [0x35, 0x14]
    ensures Positions(Differs(base, low)) == [0] && Positions(Differs(base, high)) == [1]
  {
    assert Differs(base, low) == [true, false] && Differs(base, high) == [false, true];
    TwoMarks();
  }

  lemma OneDelta()
    ensures FirstDelta(0x35) == 0x34 && SecondDelta(0x13, 0x34) == 0x1234
  {
    SecondDeltaIs(0x13, 0x34);
  }

  lemma TwoMarks()
    ensures Positions([true, false]) == [0] && Positions([false, true]) == [1]
  {
    assert [true, false][..1] == [true] && [false, true][..1] == [false] && [true][..0] == [] && [false][..0] == [];
    assert Positions([true]) == [0] && Positions([false]) == [];
  }

  /** The assemblies of such a reference, in numbers. */
  lemma OneReferenceAssembles()
    ensures var t := [LowRef(0x1234), HighRef(0x1234)];
            && Assemble(t, BASE) == [0x35, 0x13] && Assemble(t, LOW) == [0x36, 0x13]
            && Assemble(t, HIGH) == [0x35, 0x14] && Assemble(t, 0xc000) == [0x34, 0xd2]
  {
  }
}
