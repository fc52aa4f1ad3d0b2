/**
  tools/make-bootstrap.c: it prints a BASIC program whose DATA lines carry the server, with a
  checksum after every eight bytes. The DATA text is modelled character for character, and so is
  the BASIC loop that reads it back.
 */
module Bootstrap {
  import opened Bytes

  // ---- decimal numbers --------------------------------------------------------------------------

  function Digit(d: nat): char
    requires d < 10
  {
    '0' + d as char
  }

  predicate IsDigit(c: char) {
    '0' <= c <= '9'
  }

  /** printf's %d, for what is never negative here. */
  function Decimal(n: nat): (s: string)
    ensures s != "" && forall i :: 0 <= i < |s| ==> IsDigit(s[i])
  {
    if n < 10 then [Digit(n)] else Decimal(n / 10) + [Digit(n % 10)]
  }

  datatype Item = Number(value: nat) | Junk

  /** How BASIC reads a number; an empty item counts as zero. */
  function Parse(s: string): Item {
    if s == "" then Number(0)
    else if !IsDigit(s[|s| - 1]) then Junk
    else match Parse(s[..|s| - 1])
      case Number(n) => Number(10 * n + (s[|s| - 1] - '0') as nat)
      case Junk => Junk
  }

  lemma {:induction false} ParseDecimal(n: nat)
    ensures Parse(Decimal(n)) == Number(n)
  {
    var s := Decimal(n);
    if n < 10 {
      assert s[..|s| - 1] == "";
    } else {
      ParseDecimal(n / 10);
      assert s[..|s| - 1] == Decimal(n / 10);
    }
  }

  lemma {:induction false} ParseJunk(s: string, i: nat)
    requires i < |s| && !IsDigit(s[i])
    ensures Parse(s) == Junk
  {
    if i < |s| - 1 {
      ParseJunk(s[..|s| - 1], i);
    }
  }

  // ---- what BASIC makes of DATA lines -----------------------------------------------------------

  /** The parts of `s` between separators: always at least one. */
  function Split(s: string, separator: char): (parts: seq<string>)
    ensures |parts| > 0
  {
    if s == "" then [""]
    else if s[0] == separator then [""] + Split(s[1..], separator)
    else
      var rest := Split(s[1..], separator);
      [[s[0]] + rest[0]] + rest[1..]
  }

  /** Text without a separator only lengthens the first part. */
  lemma {:induction false} SplitGlue(a: string, rest: string, separator: char)
    requires forall i :: 0 <= i < |a| ==> a[i] != separator
    ensures var parts := Split(rest, separator);
            Split(a + rest, separator) == [a + parts[0]] + parts[1..]
  {
    var parts := Split(rest, separator);
    if a == "" {
      assert a + rest == rest && a + parts[0] == parts[0];
      assert parts == [parts[0]] + parts[1..];
    } else {
      SplitGlue(a[1..], rest, separator);
      assert (a + rest)[1..] == a[1..] + rest;
      assert [a[0]] + (a[1..] + parts[0]) == a + parts[0];
    }
  }

  lemma Assoc(a: string, b: string, c: string)
    ensures (a + b) + c == a + (b + c)
  {
  }

  /** A separator ends a part. */
  lemma SplitEnd(a: string, rest: string, separator: char)
    requires forall i :: 0 <= i < |a| ==> a[i] != separator
    ensures Split(a + [separator] + rest, separator) == [a] + Split(rest, separator)
  {
    var more := [separator] + rest;
    assert more[0] == separator && more[1..] == rest;
    SplitGlue(a, more, separator);
    assert a + "" == a;
    Assoc(a, [separator], rest);
  }

  const DATA := " data "

  /** A program line without its number and the word `data`. */
  function Body(line: string): string {
    if line != "" && IsDigit(line[0]) then Body(line[1..])
    else if DATA <= line then line[|DATA|..]
    else line
  }

  function ParseAll(parts: seq<string>): (items: seq<Item>)
    ensures |items| == |parts|
  {
    if parts == [] then [] else [Parse(parts[0])] + ParseAll(parts[1..])
  }

  function LineItems(line: string): seq<Item> {
    ParseAll(Split(Body(line), ','))
  }

  /** What READ finds, in order; an empty line holds nothing. */
  function LinesItems(lines: seq<string>): seq<Item> {
    if lines == [] then []
    else (if lines[0] == "" then [] else LineItems(lines[0])) + LinesItems(lines[1..])
  }

  function DataItems(text: string): seq<Item> {
    LinesItems(Split(text, '\n'))
  }

  // ---- make-bootstrap -----------------------------------------------------------------------------

  type Blocks = s: seq<byte> | |s| % 8 == 0

  function Sum(s: seq<byte>): nat {
    if s == [] then 0 else Sum(s[..|s| - 1]) + s[|s| - 1]
  }

  lemma {:induction false} SumUpdate(s: seq<byte>, p: nat, w: byte)
    requires p < |s|
    ensures Sum(s[p := w]) == Sum(s) - s[p] + w
  {
    var t, m := s[p := w], |s| - 1;
    if p < m {
      SumUpdate(s[..m], p, w);
      assert t[..m] == s[..m][p := w];
    } else {
      assert t[..m] == s[..m];
    }
  }

  /** The file behind its two address bytes, filled up with zeros: one at least, eight at most. */
  function Padded(payload: seq<byte>): (data: Blocks)
    ensures |payload| < |data| <= |payload| + 8
    ensures payload <= data && forall i :: |payload| <= i < |data| ==> data[i] == 0
  {
    var r := |payload| % 8;
    assert (|payload| + (8 - r)) % 8 == 0;
    payload + seq(8 - r, _ => 0)
  }

  function Header(l: nat): string {
    Decimal(l) + DATA
  }

  function Cells(bytes: seq<byte>): string {
    if bytes == [] then "" else Decimal(bytes[0]) + "," + Cells(bytes[1..])
  }

  /** What follows the eight cells of a group: nothing at all when a group before the last is zero. */
  function Close(group: seq<byte>, last: bool): string {
    if last || Sum(group) != 0 then Decimal(Sum(group)) + "\n" else ""
  }

  /** The DATA lines for `data`, numbered from `l`. */
  function Printed(data: Blocks, l: nat): string {
    if data == [] then ""
    else Header(l) + (Cells(data[..8]) + (Close(data[..8], |data| == 8) + Printed(data[8..], l + 1)))
  }

  function Pending(checksum: nat): string {
    if checksum != 0 then Decimal(checksum) + "\n" else ""
  }

  /** What is still to be printed of the group that begins at `first` and of those behind it. */
  function Remaining(data: Blocks, first: nat, i: nat, l: nat): string
    requires first % 8 == 0 && first <= i <= first + 8 <= |data|
  {
    Cells(data[i..first + 8]) + (Close(data[first..first + 8], first + 8 == |data|) + Printed(data[first + 8..], l))
  }

  lemma OpenGroup(data: Blocks, first: nat, l: nat)
    requires first % 8 == 0 && first + 8 <= |data|
    ensures Printed(data[first..], l) == Header(l) + Remaining(data, first, first, l + 1)
  {
    var rest: Blocks := data[first..];
    assert rest[..8] == data[first..first + 8];
    assert rest[8..] == data[first + 8..];
  }

  lemma NextCell(data: Blocks, first: nat, i: nat, l: nat)
    requires first % 8 == 0 && first <= i < first + 8 <= |data|
    ensures Remaining(data, first, i, l) == Decimal(data[i]) + "," + Remaining(data, first, i + 1, l)
    ensures Sum(data[first..i + 1]) == Sum(data[first..i]) + data[i]
  {
    var cells := data[i..first + 8];
    assert cells[1..] == data[i + 1..first + 8];
    FirstCell(cells, Close(data[first..first + 8], first + 8 == |data|) + Printed(data[first + 8..], l));
    SumNext(data, first, i);
  }

  lemma FirstCell(cells: seq<byte>, more: string)
    requires cells != []
    ensures Cells(cells) + more == Decimal(cells[0]) + "," + (Cells(cells[1..]) + more)
  {
    Assoc(Decimal(cells[0]) + ",", Cells(cells[1..]), more);
  }

  lemma SumNext(data: seq<byte>, first: nat, i: nat)
    requires first <= i < |data|
    ensures Sum(data[first..i + 1]) == Sum(data[first..i]) + data[i]
  {
    assert data[first..i + 1][..i - first] == data[first..i];
  }

  /** All eight cells are printed. */
  lemma EndGroup(data: Blocks, first: nat, l: nat)
    requires first % 8 == 0 && first + 8 <= |data|
    ensures var sum := Sum(data[first..first + 8]);
            Remaining(data, first, first + 8, l) == if first + 8 == |data| then Decimal(sum) + "\n"
                                                    else Pending(sum) + Printed(data[first + 8..], l)
  {
    assert data[first + 8..first + 8] == [];
    assert first + 8 == |data| ==> data[first + 8..] == [];
    CloseIs(data[first..first + 8], first + 8 == |data|, Printed(data[first + 8..], l));
  }

  lemma CloseIs(group: seq<byte>, last: bool, rest: string)
    requires last ==> rest == ""
    ensures Cells([]) + (Close(group, last) + rest)
         == if last then Decimal(Sum(group)) + "\n" else Pending(Sum(group)) + rest
  {
    assert last ==> Close(group, last) + rest == Close(group, last);
    assert "" + (Close(group, last) + rest) == Close(group, last) + rest;
  }

  /** Before byte `i` of the group begun at `first`: `out` is printed, and the group's header with it. */
  ghost predicate InGroup(text: string, data: Blocks, first: nat, i: nat, l: nat, checksum: nat, out: string) {
    && first % 8 == 0 && first <= i <= first + 8 <= |data| && checksum == Sum(data[first..i])
    && text == out + Remaining(data, first, i, l)
  }

  /** Between groups: a checksum may still have to be printed. */
  ghost predicate AtGroup(text: string, data: Blocks, i: nat, l: nat, checksum: nat, out: string) {
    && i % 8 == 0 && i <= |data|
    && text == if i == |data| then out else out + (Pending(checksum) + Printed(data[i..], l))
  }

  lemma PrintHeader(text: string, data: Blocks, i: nat, l: nat, checksum: nat, out: string)
    requires i < |data| && AtGroup(text, data, i, l, checksum, out)
    ensures InGroup(text, data, i, i, l + 1, 0, out + Pending(checksum) + Header(l))
  {
    OpenGroup(data, i, l);
    var pending, head, rest := Pending(checksum), Header(l), Remaining(data, i, i, l + 1);
    Assoc(out, pending, head + rest);
    Assoc(out + pending, head, rest);
  }

  lemma PrintCell(text: string, data: Blocks, first: nat, i: nat, l: nat, checksum: nat, out: string)
    requires InGroup(text, data, first, i, l, checksum, out) && i < first + 8
    ensures InGroup(text, data, first, i + 1, l, checksum + data[i], out + (Decimal(data[i]) + ","))
  {
    NextCell(data, first, i, l);
    Assoc(out, Decimal(data[i]) + ",", Remaining(data, first, i + 1, l));
  }

  lemma PrintChecksum(text: string, data: Blocks, first: nat, l: nat, sum: nat, out: string)
    requires InGroup(text, data, first, first + 8, l, sum, out)
    ensures AtGroup(text, data, first + 8, l, sum, if first + 8 == |data| then out + (Decimal(sum) + "\n") else out)
  {
    EndGroup(data, first, l);
  }

  /** The printing loop. */
  method PrintData(data: Blocks) returns (out: string)
    ensures out == Printed(data, 1000)
  {
    ghost var text := Printed(data, 1000);
    assert data[0..] == data;
    out := PrintGroups(data, text);
  }

  /** Byte `i` belongs to the group that begins at `first`. */
  ghost predicate InStep(first: nat, i: nat) {
    first % 8 == 0 && i % 8 == i - first
  }

  lemma StepOn(first: nat, i: nat)
    requires InStep(first, i)
    ensures first <= i < first + 8 && (i % 8 == 0 <==> i == first)
    ensures InStep(if i == first + 7 then i + 1 else first, i + 1)
    ensures (i + 1) % 8 == 0 <==> i == first + 7
  {
  }

  /** Before byte `i`: between two groups, or within the one begun at `first`. */
  ghost predicate Before(text: string, data: Blocks, first: nat, i: nat, l: nat, checksum: nat, out: string) {
    && InStep(first, i)
    && if i == first then AtGroup(text, data, i, l, checksum, out) else InGroup(text, data, first, i, l, checksum, out)
  }

  /** Where a group begins, the checksum of the one before it, if that is not zero, and a new line. */
  method OpenLine(ghost text: string, data: Blocks, ghost first: nat, i: nat, l: nat, checksum: nat, out: string)
      returns (line: nat, sum: nat, more: string)
    requires i < |data| && Before(text, data, first, i, l, checksum, out)
    ensures l <= line && InGroup(text, data, first, i, line, sum, more)
  {
    StepOn(first, i);
    line, sum, more := l, checksum, out;
    if i % 8 == 0 {
      PrintHeader(text, data, i, l, checksum, out);
      if checksum != 0 {
        more := more + (Decimal(checksum) + "\n");
      }
      assert more == out + Pending(checksum);
      more := more + Header(l);
      line, sum := l + 1, 0;
    }
  }

  /** One byte and, behind the very last, its group's checksum. */
  method AddCell(ghost text: string, data: Blocks, ghost first: nat, i: nat, l: nat, checksum: nat, out: string)
      returns (sum: nat, more: string)
    requires InStep(first, i) && i < |data| && InGroup(text, data, first, i, l, checksum, out)
    ensures Before(text, data, if i == first + 7 then i + 1 else first, i + 1, l, sum, more)
  {
    StepOn(first, i);
    PrintCell(text, data, first, i, l, checksum, out);
    more := out + (Decimal(data[i]) + ",");
    sum := checksum + data[i];
    if i == first + 7 {
      PrintChecksum(text, data, first, l, sum, more);
    }
    if i == |data| - 1 && i % 8 != 0 {
      more := more + (Decimal(sum) + "\n");
    }
  }

  /** A round of the loop. */
  method PrintByte(ghost text: string, data: Blocks, ghost first: nat, i: nat, l: nat, checksum: nat, out: string)
      returns (ghost group: nat, next: nat, line: nat, sum: nat, more: string)
    requires i < |data| && Before(text, data, first, i, l, checksum, out)
    ensures next == i + 1 && l <= line && Before(text, data, group, next, line, sum, more)
  {
    line, sum, more := OpenLine(text, data, first, i, l, checksum, out);
    sum, more := AddCell(text, data, first, i, line, sum, more);
    group, next := if i == first + 7 then i + 1 else first, i + 1;
  }

  method PrintGroups(data: Blocks, ghost text: string) returns (out: string)
    requires AtGroup(text, data, 0, 1000, 0, "")
    ensures out == text
  {
    var i: nat, l: nat := 0, 1000;
    var checksum: nat := 0;
    ghost var first: nat := 0;
    out := "";
    while i < |data|
      invariant i <= |data| && 1000 <= l && Before(text, data, first, i, l, checksum, out)
    {
      first, i, l, checksum, out := PrintByte(text, data, first, i, l, checksum, out);
    }
    AllPrinted(text, data, first, l, checksum, out);
  }

  lemma AllPrinted(text: string, data: Blocks, first: nat, l: nat, checksum: nat, out: string)
    requires Before(text, data, first, |data|, l, checksum, out)
    ensures out == text
  {
  }

  // ---- the items BASIC finds in the printed text ---------------------------------------------------

  function Numbers(bytes: seq<byte>): (items: seq<Item>)
    ensures |items| == |bytes|
    ensures forall i :: 0 <= i < |bytes| ==> items[i] == Number(bytes[i])
  {
    seq(|bytes|, i requires 0 <= i < |bytes| => Number(bytes[i]))
  }

  lemma {:induction false} CellsItems(bytes: seq<byte>, tail: string)
    ensures ParseAll(Split(Cells(bytes) + tail, ',')) == Numbers(bytes) + ParseAll(Split(tail, ','))
  {
    if bytes == [] {
      assert Cells(bytes) + tail == tail;
    } else {
      var cell, more := Decimal(bytes[0]), Cells(bytes[1..]) + tail;
      Assoc(cell + ",", Cells(bytes[1..]), tail);
      SplitEnd(cell, more, ',');
      ParseDecimal(bytes[0]);
      CellsItems(bytes[1..], tail);
      ParseAllCons(cell, Split(more, ','));
      NumbersCons(bytes, ParseAll(Split(tail, ',')));
    }
  }

  lemma ParseAllCons(part: string, parts: seq<string>)
    ensures ParseAll([part] + parts) == [Parse(part)] + ParseAll(parts)
  {
    assert ([part] + parts)[1..] == parts;
  }

  lemma NumbersCons(bytes: seq<byte>, items: seq<Item>)
    requires bytes != []
    ensures Numbers(bytes) + items == [Number(bytes[0])] + (Numbers(bytes[1..]) + items)
  {
  }

  lemma {:induction false} BodyOfLine(digits: string, body: string)
    requires forall i :: 0 <= i < |digits| ==> IsDigit(digits[i])
    ensures Body(digits + (DATA + body)) == body
  {
    var line := digits + (DATA + body);
    if digits == "" {
      assert line == DATA + body && DATA <= line;
    } else {
      assert line[1..] == digits[1..] + (DATA + body);
      BodyOfLine(digits[1..], body);
    }
  }

  lemma {:induction false} CellsOneLine(bytes: seq<byte>)
    ensures forall i :: 0 <= i < |Cells(bytes)| ==> Cells(bytes)[i] != '\n'
  {
    if bytes != [] {
      CellsOneLine(bytes[1..]);
    }
  }

  /** A line reads as its cells, and as whatever follows them up to the next newline. */
  lemma ItemsOfLine(group: seq<byte>, l: nat, more: string)
    ensures var parts := Split(more, '\n');
            DataItems(Header(l) + (Cells(group) + more))
            == Numbers(group) + ParseAll(Split(parts[0], ',')) + LinesItems(parts[1..])
  {
    var parts := Split(more, '\n');
    CellsOneLine(group);
    SplitGlue(Cells(group), more, '\n');
    SplitGlue(Header(l), Cells(group) + more, '\n');
    var line := Header(l) + (Cells(group) + parts[0]);
    assert ([line] + parts[1..])[1..] == parts[1..];
    Assoc(Decimal(l), DATA, Cells(group) + parts[0]);
    BodyOfLine(Decimal(l), Cells(group) + parts[0]);
    CellsItems(group, parts[0]);
  }

  lemma ItemsOfChecksum(sum: nat)
    ensures ParseAll(Split(Decimal(sum), ',')) == [Number(sum)]
  {
    SplitGlue(Decimal(sum), "", ',');
    assert Decimal(sum) + "" == Decimal(sum);
    ParseDecimal(sum);
    ParseAllCons(Decimal(sum), []);
  }

  /** A group with its checksum is a line of nine numbers. */
  lemma ItemsOfGroup(group: seq<byte>, l: nat, sum: nat, rest: string)
    ensures DataItems(Header(l) + (Cells(group) + (Decimal(sum) + "\n" + rest)))
            == Numbers(group) + [Number(sum)] + DataItems(rest)
  {
    var more := Decimal(sum) + "\n" + rest;
    SplitEnd(Decimal(sum), rest, '\n');
    ItemsOfChecksum(sum);
    ItemsOfLine(group, l, more);
    assert Split(more, '\n')[1..] == Split(rest, '\n');
  }

  /** Without its checksum the next line is glued to it, and its number and `data` with it. */
  lemma ItemsOfOpenGroup(group: seq<byte>, l: nat, m: nat, rest: string)
    ensures Numbers(group) + [Junk] <= DataItems(Header(l) + (Cells(group) + (Header(m) + rest)))
  {
    ItemsOfLine(group, l, Header(m) + rest);
    SplitGlue(Header(m), rest, '\n');
    var line := Split(rest, '\n')[0];
    SplitGlue(Header(m), line, ',');
    ParseJunk(Header(m) + Split(line, ',')[0], |Decimal(m)|);
    ParseAllCons(Header(m) + Split(line, ',')[0], Split(line, ',')[1..]);
  }

  // ---- the BASIC loop ---------------------------------------------------------------------------------

  type Memory = s: seq<byte> | |s| == 0x1_0000 witness seq(0x1_0000, _ => 0)

  /** READ with a numeric variable, and what is left to read; None stands for BASIC's own errors. */
  datatype Reading = Reading(items: seq<Item>, memory: Memory, sum: nat) | Stopped(memory: Memory)

  predicate CanRead(items: seq<Item>) {
    items != [] && items[0].Number?
  }

  /** `read v:poke a,v:c=c+v` */
  function PokeNext(r: Reading, a: nat): Reading {
    if r.Stopped? then r
    else if !CanRead(r.items) || r.items[0].value > 255 || a > 65535 then Stopped(r.memory)
    else
      var v := r.items[0].value;
      Reading(r.items[1..], r.memory[a := v], r.sum + v)
  }

  /** The rounds of the inner loop that poke the addresses from `at` up to `to`. */
  function PokeTo(r: Reading, at: nat, to: nat): Reading {
    if to <= at then r else PokeNext(PokeTo(r, at, to - 1), to - 1)
  }

  datatype Ending = Finished | ChecksumError(line: nat) | BasicError
  datatype Outcome = Outcome(memory: Memory, ending: Ending)

  /** The outer loop from address `at` on, with `left` bytes to go; `l` counts the lines. */
  function Basic(items: seq<Item>, memory: Memory, at: nat, left: nat, l: nat): Outcome
    decreases left
  {
    var r := PokeTo(Reading(items, memory, 0), at, at + 8);
    if r.Stopped? || !CanRead(r.items) then Outcome(r.memory, BasicError)
    else if r.sum != r.items[0].value then Outcome(r.memory, ChecksumError(l))
    else if left <= 8 then Outcome(r.memory, Finished)
    else Basic(r.items[1..], r.memory, at + 8, left - 8, l + 1)
  }

  /** The printed program; `for` runs its body before it looks at the end, so at least once. */
  method RunBasic(items: seq<Item>, d: nat, s: nat, before: Memory) returns (memory: Memory, ending: Ending)
    requires s > 0
    ensures Outcome(memory, ending) == Basic(items, before, d, s, 1000)
  {
    var rest := items;
    var c, l, i := 0, 1000, 0;
    memory := before;
    while true
      invariant 0 <= i < s && 0 <= l && c == 0
      invariant Basic(rest, memory, d + i, s - i, l) == Basic(items, before, d, s, 1000)
      decreases s - i
    {
      ghost var start := Reading(rest, memory, 0);
      var k := 0;
      while k <= 7
        invariant 0 <= k <= 8 && 0 <= c
        invariant PokeTo(start, d + i, d + i + k) == Reading(rest, memory, c)
      {
        if !CanRead(rest) || rest[0].value > 255 || d + i + k > 65535 {
          StaysStopped(start, d + i, d + i + k + 1, d + i + 8);
          return memory, BasicError;
        }
        var v := rest[0].value;
        rest, memory, c := rest[1..], memory[d + i + k := v], c + v;
        k := k + 1;
      }
      if !CanRead(rest) {
        return memory, BasicError;
      }
      if c != rest[0].value {
        return memory, ChecksumError(l);
      }
      rest, c, l, i := rest[1..], 0, l + 1, i + 7;
      i := i + 1;
      if i > s - 1 {
        return memory, Finished;
      }
    }
  }

  lemma {:induction false} StaysStopped(r: Reading, at: nat, k: nat, n: nat)
    requires k <= n && PokeTo(r, at, k).Stopped?
    ensures PokeTo(r, at, n) == PokeTo(r, at, k)
  {
    if k < n {
      StaysStopped(r, at, k, n - 1);
    }
  }

  function Written(memory: Memory, at: nat, bytes: seq<byte>): Memory
    requires at + |bytes| <= 0x1_0000
  {
    memory[..at] + bytes + memory[at + |bytes|..]
  }

  /** Eight numbers are poked in their order, and summed up. */
  lemma {:induction false} PokesGroup(group: seq<byte>, more: seq<Item>, memory: Memory, at: nat, k: nat)
    requires k <= |group| && at + |group| <= 0x1_0000
    ensures PokeTo(Reading(Numbers(group) + more, memory, 0), at, at + k)
         == Reading(Numbers(group[k..]) + more, Written(memory, at, group[..k]), Sum(group[..k]))
  {
    if k > 0 {
      PokesGroup(group, more, memory, at, k - 1);
      var items := Numbers(group[k - 1..]) + more;
      assert items[1..] == Numbers(group[k..]) + more;
      assert group[..k][..k - 1] == group[..k - 1];
    }
  }

  // ---- the round trip ------------------------------------------------------------------------------------

  /** Only the last eight bytes may all be zero. */
  predicate NoZeroGroup(data: Blocks) {
    |data| > 8 ==> Sum(data[..8]) != 0 && NoZeroGroup(data[8..])
  }

  /** A group with its checksum is poked, and the loop goes on behind it. */
  lemma GroupRead(group: seq<byte>, rest: seq<Item>, memory: Memory, at: nat, left: nat, l: nat)
    requires |group| == 8 && at + 8 <= 0x1_0000
    ensures Basic(Numbers(group) + [Number(Sum(group))] + rest, memory, at, left, l)
         == if left <= 8 then Outcome(Written(memory, at, group), Finished)
            else Basic(rest, Written(memory, at, group), at + 8, left - 8, l + 1)
  {
    var more := [Number(Sum(group))] + rest;
    assert Numbers(group) + [Number(Sum(group))] + rest == Numbers(group) + more;
    PokesGroup(group, more, memory, at, 8);
    assert group[..8] == group && Numbers(group[8..]) + more == more;
    assert more[1..] == rest;
  }

  /** A group whose checksum is not what was read. */
  lemma GroupStops(group: seq<byte>, more: seq<Item>, memory: Memory, at: nat, left: nat, l: nat)
    requires |group| == 8 && at + 8 <= 0x1_0000 && more != []
    ensures more[0] == Junk ==> Basic(Numbers(group) + more, memory, at, left, l).ending == BasicError
    ensures more[0].Number? && more[0].value != Sum(group)
            ==> Basic(Numbers(group) + more, memory, at, left, l).ending == ChecksumError(l)
  {
    PokesGroup(group, more, memory, at, 8);
    assert group[..8] == group && Numbers(group[8..]) + more == more;
  }

  lemma WrittenTwice(memory: Memory, at: nat, a: seq<byte>, b: seq<byte>)
    requires at + |a| + |b| <= 0x1_0000
    ensures Written(Written(memory, at, a), at + |a|, b) == Written(memory, at, a + b)
  {
  }

  /** What the DATA of `data` reads as, as far as it can be read at all. */
  ghost predicate Found(items: seq<Item>, data: Blocks) {
    if data == [] then true
    else if |data| == 8 || Sum(data[..8]) != 0 then
      |items| >= 9 && items[..9] == Numbers(data[..8]) + [Number(Sum(data[..8]))] && Found(items[9..], data[8..])
    else Numbers(data[..8]) + [Junk] <= items
  }

  lemma {:induction false} PrintedIsFound(data: Blocks, l: nat)
    ensures Found(DataItems(Printed(data, l)), data)
  {
    if data != [] {
      var group, rest: Blocks := data[..8], data[8..];
      if |data| == 8 || Sum(group) != 0 {
        var items, more := DataItems(Printed(data, l)), DataItems(Printed(rest, l + 1));
        ItemsOfGroup(group, l, Sum(group), Printed(rest, l + 1));
        assert items[9..] == more;
        PrintedIsFound(rest, l + 1);
      } else {
        var more := Cells(rest[..8]) + (Close(rest[..8], |rest| == 8) + Printed(rest[8..], l + 2));
        ItemsOfOpenGroup(group, l, l + 1, more);
        assert Close(group, false) + Printed(rest, l + 1) == Header(l + 1) + more;
      }
    }
  }

  lemma {:induction false} BasicReadsFound(items: seq<Item>, data: Blocks, memory: Memory, at: nat, l: nat)
    requires data != [] && Found(items, data)
    ensures ReadsAs(Basic(items, memory, at, |data|, l), data, memory, at)
    decreases |data|
  {
    var group := data[..8];
    if at + 8 > 0x1_0000 {
    } else if |data| == 8 || Sum(group) != 0 {
      assert items == Numbers(group) + [Number(Sum(group))] + items[9..];
      GroupRead(group, items[9..], memory, at, |data|, l);
      if |data| == 8 {
        assert group == data;
      } else {
        BasicReadsFound(items[9..], data[8..], Written(memory, at, group), at + 8, l + 1);
        ReadsOn(Basic(items, memory, at, |data|, l), data, memory, at);
      }
    } else {
      var more := items[8..];
      assert items == Numbers(group) + more && more[0] == Junk;
      GroupStops(group, more, memory, at, |data|, l);
    }
  }

  /** The loop ends well exactly for data that is printed whole and fits into memory, and then has poked it. */
  ghost predicate ReadsAs(o: Outcome, data: Blocks, memory: Memory, at: nat) {
    && !o.ending.ChecksumError?
    && (o.ending == Finished <==> NoZeroGroup(data) && at + |data| <= 0x1_0000)
    && (o.ending == Finished ==> o.memory == Written(memory, at, data))
  }

  lemma ReadsOn(o: Outcome, data: Blocks, memory: Memory, at: nat)
    requires |data| > 8 && Sum(data[..8]) != 0 && at + 8 <= 0x1_0000
    requires ReadsAs(o, data[8..], Written(memory, at, data[..8]), at + 8)
    ensures ReadsAs(o, data, memory, at)
  {
    if at + |data| <= 0x1_0000 {
      WrittenTwice(memory, at, data[..8], data[8..]);
      assert data[..8] + data[8..] == data;
    }
  }

  /**
    The loop over the printed DATA pokes exactly the padded file and reports no error, if and only
    if no group before the last is all zero and everything lies below address 65536.
   */
  lemma BootstrapRoundTrip(payload: seq<byte>, address: word, memory: Memory)
    ensures var data := Padded(payload);
            var o := Basic(DataItems(Printed(data, 1000)), memory, address, |data|, 1000);
            && (o.ending == Finished <==> NoZeroGroup(data) && address + |data| <= 0x1_0000)
            && (o.ending == Finished ==> o.memory == Written(memory, address, data))
            && (o.ending == Finished ==> forall a :: 0 <= a < 0x1_0000 ==>
                  o.memory[a] == if address <= a < address + |data| then data[a - address] else memory[a])
            && (o.ending != Finished ==> o.ending == BasicError)
  {
    var data := Padded(payload);
    PrintedIsFound(data, 1000);
    BasicReadsFound(DataItems(Printed(data, 1000)), data, memory, address, 1000);
  }

  /** Eight zeros at the front already stop BASIC in the DATA. */
  lemma ZeroGroupBreaks(address: word, memory: Memory)
    ensures var data := Padded(seq(8, _ => 0));
            Basic(DataItems(Printed(data, 1000)), memory, address, |data|, 1000).ending == BasicError
  {
    var zeros: seq<byte> := seq(8, _ => 0);
    BootstrapRoundTrip(zeros, address, memory);
    assert Padded(zeros)[..8] == zeros;
    SumOfZeros(zeros);
  }

  lemma {:induction false} SumOfZeros(s: seq<byte>)
    ensures Sum(s) == 0 <==> forall i :: 0 <= i < |s| ==> s[i] == 0
  {
    if s != [] {
      SumOfZeros(s[..|s| - 1]);
      assert s == s[..|s| - 1] + [s[|s| - 1]];
    }
  }

  /** A wrong number among the nine of a group: the group's own checksum tells. */
  lemma AlteredGroup(group: seq<byte>, rest: seq<Item>, memory: Memory, at: nat, left: nat, l: nat, p: nat, w: nat)
    requires |group| == 8 && at + 8 <= 0x1_0000 && p <= 8 && (p < 8 ==> w <= 255)
    requires w != if p < 8 then group[p] else Sum(group)
    ensures var items := Numbers(group) + [Number(Sum(group))] + rest;
            Basic(items[p := Number(w)], memory, at, left, l).ending == ChecksumError(l)
  {
    var sum := Number(Sum(group));
    var items := Numbers(group) + [sum] + rest;
    if p < 8 {
      var b: byte := w;
      SumUpdate(group, p, b);
      assert items[p := Number(w)] == Numbers(group[p := b]) + ([sum] + rest);
      GroupStops(group[p := b], [sum] + rest, memory, at, left, l);
    } else {
      assert items[p := Number(w)] == Numbers(group) + ([Number(w)] + rest);
      GroupStops(group, [Number(w)] + rest, memory, at, left, l);
    }
  }

  lemma {:induction false} AlteredStops(items: seq<Item>, data: Blocks, memory: Memory, at: nat, l: nat, p: nat, w: nat)
    requires data != [] && Found(items, data) && NoZeroGroup(data) && at + |data| <= 0x1_0000
    requires 8 * p < 9 * |data| && (p % 9 == 8 || w <= 255)
    ensures p < |items| && (items[p] != Number(w)
            ==> Basic(items[p := Number(w)], memory, at, |data|, l).ending == ChecksumError(l + p / 9))
    decreases |data|
  {
    var group, rest := data[..8], items[9..];
    var sum := Number(Sum(group));
    assert items == Numbers(group) + [sum] + rest;
    if p <= 8 {
      if items[p] != Number(w) {
        AlteredGroup(group, rest, memory, at, |data|, l, p, w);
      }
    } else {
      AlteredStops(rest, data[8..], Written(memory, at, group), at + 8, l + 1, p - 9, w);
      AlteredBehind(Numbers(group) + [sum], rest, p, Number(w));
      GroupRead(group, rest[p - 9 := Number(w)], memory, at, |data|, l);
    }
  }

  lemma AlteredBehind(first: seq<Item>, rest: seq<Item>, p: nat, item: Item)
    requires |first| <= p < |first| + |rest|
    ensures (first + rest)[p] == rest[p - |first|]
    ensures (first + rest)[p := item] == first + rest[p - |first| := item]
  {
  }

  // ---- the lines of the printed text ---------------------------------------------------------------------

  /** How many digits a line begins with. */
  function LeadingDigits(line: string): (n: nat)
    ensures n <= |line|
    ensures forall i :: 0 <= i < n ==> IsDigit(line[i])
    ensures n < |line| ==> !IsDigit(line[n])
  {
    if line == "" || !IsDigit(line[0]) then 0 else 1 + LeadingDigits(line[1..])
  }

  lemma {:induction false} DigitsThen(digits: string, rest: string)
    requires forall i :: 0 <= i < |digits| ==> IsDigit(digits[i])
    requires rest != "" && !IsDigit(rest[0])
    ensures LeadingDigits(digits + rest) == |digits|
  {
    if digits == "" {
      assert digits + rest == rest;
    } else {
      assert (digits + rest)[1..] == digits[1..] + rest;
      DigitsThen(digits[1..], rest);
    }
  }

  /** A DATA line with this number, for these bytes. */
  ghost predicate IsDataLine(line: string, number: nat, group: seq<byte>) {
    var n := LeadingDigits(line);
    && Parse(line[..n]) == Number(number)
    && " data " <= line[n..] && ParseAll(Split(line[n + 6..], ',')) == Numbers(group) + [Number(Sum(group))]
    && LineItems(line) == Numbers(group) + [Number(Sum(group))]
  }

  /** The line of a group, and the lines behind it. */
  lemma LineOfGroup(group: seq<byte>, l: nat, rest: string)
    ensures var lines := Split(Header(l) + (Cells(group) + (Decimal(Sum(group)) + "\n" + rest)), '\n');
            lines[1..] == Split(rest, '\n') && IsDataLine(lines[0], l, group)
  {
    var body := Cells(group) + Decimal(Sum(group));
    var line := Header(l) + body;
    CellsOneLine(group);
    SplitEnd(line, rest, '\n');
    FourParts(Header(l), Cells(group), Decimal(Sum(group)), "\n" + rest);
    Assoc(line, "\n", rest);
    Assoc(Decimal(Sum(group)), "\n", rest);
    LineNumber(l, body);
    LineHolds(group, l);
  }

  lemma FourParts(a: string, b: string, c: string, d: string)
    ensures a + (b + (c + d)) == (a + (b + c)) + d
  {
  }

  lemma LineNumber(l: nat, body: string)
    ensures var line := Header(l) + body;
            var n := LeadingDigits(line);
            n == |Decimal(l)| && Parse(line[..n]) == Number(l) && " data " <= line[n..]
  {
    var line := Header(l) + body;
    Assoc(Decimal(l), DATA, body);
    DigitsThen(Decimal(l), DATA + body);
    assert line[..|Decimal(l)|] == Decimal(l) && line[|Decimal(l)|..] == DATA + body;
    ParseDecimal(l);
  }

  lemma LineHolds(group: seq<byte>, l: nat)
    ensures var line := Header(l) + (Cells(group) + Decimal(Sum(group)));
            && LineItems(line) == Numbers(group) + [Number(Sum(group))]
            && |Decimal(l)| + 6 <= |line|
            && ParseAll(Split(line[|Decimal(l)| + 6..], ',')) == Numbers(group) + [Number(Sum(group))]
  {
    var body := Cells(group) + Decimal(Sum(group));
    Assoc(Decimal(l), DATA, body);
    BodyOfLine(Decimal(l), body);
    CellsItems(group, Decimal(Sum(group)));
    ItemsOfChecksum(Sum(group));
    assert (Header(l) + body)[|Decimal(l)| + 6..] == body;
  }

  /** Line `k` bears number `l + k` and carries group `k`; behind the last one there is nothing. */
  ghost predicate AreDataLines(lines: seq<string>, data: Blocks, l: nat) {
    && |lines| == |data| / 8 + 1 && lines[|data| / 8] == ""
    && forall k :: 0 <= k < |data| / 8 ==> IsDataLine(lines[k], l + k, data[8 * k..8 * k + 8])
  }

  lemma {:induction false} LinesPrinted(data: Blocks, l: nat)
    requires NoZeroGroup(data)
    ensures AreDataLines(Split(Printed(data, l), '\n'), data, l)
    decreases |data|
  {
    if data != [] {
      var group, rest: Blocks := data[..8], data[8..];
      FirstLine(data, l);
      LinesPrinted(rest, l + 1);
      LinesMore(data, rest, l, Split(Printed(data, l), '\n'), Split(Printed(rest, l + 1), '\n'));
    }
  }

  lemma FirstLine(data: Blocks, l: nat)
    requires NoZeroGroup(data) && data != []
    ensures var lines := Split(Printed(data, l), '\n');
            lines[1..] == Split(Printed(data[8..], l + 1), '\n') && IsDataLine(lines[0], l, data[..8])
  {
    LineOfGroup(data[..8], l, Printed(data[8..], l + 1));
    assert Close(data[..8], |data| == 8) == Decimal(Sum(data[..8])) + "\n";
  }

  lemma LinesMore(data: Blocks, rest: Blocks, l: nat, lines: seq<string>, more: seq<string>)
    requires |data| == |rest| + 8 && data[8..] == rest
    requires lines != [] && lines[1..] == more && IsDataLine(lines[0], l, data[..8])
    requires AreDataLines(more, rest, l + 1)
    ensures AreDataLines(lines, data, l)
  {
    forall k | 0 <= k < |data| / 8 ensures IsDataLine(lines[k], l + k, data[8 * k..8 * k + 8]) {
      if k > 0 {
        assert lines[k] == more[k - 1];
        GroupBehind(data, rest, k - 1);
      }
    }
  }

  lemma GroupBehind(data: seq<byte>, rest: seq<byte>, j: nat)
    requires |data| == |rest| + 8 && data[8..] == rest && 8 * j + 8 <= |rest|
    ensures rest[8 * j..8 * j + 8] == data[8 * (j + 1)..8 * (j + 1) + 8]
  {
  }

  /** Item `p` of the text stands in line `p / 9`. */
  lemma {:induction false} ItemStandsIn(lines: seq<string>, groups: nat, p: nat)
    requires |lines| == groups + 1 && lines[groups] == ""
    requires forall k :: 0 <= k < groups ==> lines[k] != "" && |LineItems(lines[k])| == 9
    ensures |LinesItems(lines)| == 9 * groups
    ensures p < 9 * groups ==> LinesItems(lines)[p] == LineItems(lines[p / 9])[p % 9]
    decreases groups
  {
    if groups == 0 {
      assert lines[1..] == [];
    } else {
      ItemStandsIn(lines[1..], groups - 1, if p < 9 then 0 else p - 9);
      if p >= 9 {
        assert p / 9 == (p - 9) / 9 + 1 && p % 9 == (p - 9) % 9;
      }
    }
  }

  /** The number that the line of item `p` begins with. */
  lemma LinesCarry(data: Blocks, l: nat, p: nat)
    requires NoZeroGroup(data) && 8 * p < 9 * |data|
    ensures StandsIn(Split(Printed(data, l), '\n'), DataItems(Printed(data, l)), p, l + p / 9)
  {
    LinesPrinted(data, l);
    LineOfItem(Split(Printed(data, l), '\n'), data, l, p);
  }

  /** Item `p` is one of the nine in a line that begins with `number`. */
  ghost predicate StandsIn(lines: seq<string>, items: seq<Item>, p: nat, number: nat) {
    && p < |items| && p / 9 < |lines|
    && var line := lines[p / 9];
       && |LineItems(line)| == 9 && items[p] == LineItems(line)[p % 9]
       && Parse(line[..LeadingDigits(line)]) == Number(number)
  }

  lemma LineOfItem(lines: seq<string>, data: Blocks, l: nat, p: nat)
    requires AreDataLines(lines, data, l) && 8 * p < 9 * |data|
    ensures StandsIn(lines, LinesItems(lines), p, l + p / 9)
  {
    var groups := |data| / 8;
    forall k | 0 <= k < groups ensures lines[k] != "" && |LineItems(lines[k])| == 9 {
      assert IsDataLine(lines[k], l + k, data[8 * k..8 * k + 8]);
    }
    ItemStandsIn(lines, groups, p);
    assert p / 9 < groups && IsDataLine(lines[p / 9], l + p / 9, data[8 * (p / 9)..8 * (p / 9) + 8]);
  }

  /**
    One wrong number in DATA that would read back makes the loop report the number that the line it
    stands in begins with.
   */
  lemma AlteredIsReported(payload: seq<byte>, address: word, memory: Memory, p: nat, w: nat)
    requires NoZeroGroup(Padded(payload)) && address + |Padded(payload)| <= 0x1_0000
    requires 8 * p < 9 * |Padded(payload)| && (p % 9 == 8 || w <= 255)
    ensures var text := Printed(Padded(payload), 1000);
            var items := DataItems(text);
            && StandsIn(Split(text, '\n'), items, p, 1000 + p / 9)
            && (items[p] != Number(w) ==>
                  Basic(items[p := Number(w)], memory, address, |Padded(payload)|, 1000).ending
                  == ChecksumError(1000 + p / 9))
  {
    var data := Padded(payload);
    PrintedIsFound(data, 1000);
    AlteredStops(DataItems(Printed(data, 1000)), data, memory, address, 1000, p, w);
    LinesCarry(data, 1000, p);
  }

  /** Every digit is the character it stands for. */
  lemma TenDigits()
    ensures Decimal(1000) == "1000" && Decimal(23456) == "23456" && Decimal(789) == "789"
  {
    assert Decimal(1) == "1" && Decimal(10) == "10" && Decimal(100) == "100";
    assert Decimal(2) == "2" && Decimal(23) == "23" && Decimal(234) == "234" && Decimal(2345) == "2345";
    assert Decimal(7) == "7" && Decimal(78) == "78";
  }
}
