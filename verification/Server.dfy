/**
  The memory side of the C64 server: server64.asm with the macros of server.h.

  The transfer pointers and the requested configuration live in zero page, so a command
  header is itself a store to $c1-$c4, $fe and $ff.  A load that begins where BASIC programs
  begin also sets the BASIC end pointer.  What the server does between acknowledging a byte and
  waiting for the next one is done with the byte.

  The low three bits of the processor port decide what the CPU sees from $a000 on: RAM, ROM, or
  I/O from $d000 to $dfff.  The slow paths store with $33 in the port, which shows no I/O, or
  read with the requested configuration, and leave $37 there.  They do so for every byte; here
  the $37 is stored once, at the end, since nothing looks at the port in between.

  A load into I/O, or over the server's code, the stack, the interrupt vector or the port is
  where the model ends: the phase is Derailed.  The screen switch is left out.
 */
module Server {
  import opened Bytes

  const SIZE := 0x1_0000

  type Memory = m: seq<byte> | |m| == SIZE witness seq(SIZE, _ => 0)

  const START := 0xc1
  const END := 0xc3
  const BSTART := 0x2b
  const BEND := 0x2d
  const PORT := 0x01
  const MEM := 0xfe
  const BANK := 0xff

  const CMD_LOAD: byte := 0x01
  const CMD_SAVE: byte := 0x02
  const CMD_PING: byte := 0xfd

  /** The normal memory configuration. */
  const NORMAL: byte := 0x37

  /**
    `Loading` remembers what checkBasic has pushed, and which loop runs; `Saving` the latter.
    `Elsewhere` is a command whose body is not part of this model.
   */
  datatype Phase =
    | Idle | Header(command: byte, count: nat) | Loading(basic: bool, fast: bool)
    | Turning | Saving(fast: bool) | Elsewhere | Derailed

  /**
    What does not change: where in RAM the server lies, which cells the KERNAL's interrupt may
    change between two commands, and what ROM and I/O show.
   */
  datatype World = World(code: set<nat>, kernal: set<nat>, rom: Memory, io: Memory)

  datatype Machine = Machine(mem: Memory, phase: Phase, world: World)

  /** Processor port, stack page and interrupt vector. */
  const SYSTEM: set<nat> := {0, PORT, 0x314, 0x315} + set c: nat | 0x100 <= c < 0x200

  /** The cells that the running server relies on, besides its workspace. */
  function Vital(world: World): set<nat> {
    world.code + SYSTEM
  }

  // ---- what the CPU sees --------------------------------------------------------------------

  datatype View = Ram | Rom | Io

  /** The port's low bits switch BASIC, KERNAL, and characters against I/O; the port itself is I/O. */
  function ViewOf(config: byte, c: word): View {
    var low := config % 8;
    var basic, kernal, io := low in {1, 3, 5, 7}, low in {2, 3, 6, 7}, low >= 4;
    if c <= PORT then Io
    else if 0xa000 <= c < 0xc000 && basic && kernal then Rom
    else if 0xd000 <= c < 0xe000 && (basic || kernal) then (if io then Io else Rom)
    else if 0xe000 <= c && kernal then Rom
    else Ram
  }

  lemma ViewSame(a: byte, b: byte, c: word)
    requires a % 8 == b % 8
    ensures ViewOf(a, c) == ViewOf(b, c)
  {
  }

  function Seen(mem: Memory, world: World, config: byte, c: word): byte {
    match ViewOf(config, c)
    case Ram => mem[c]
    case Rom => world.rom[c]
    case Io => world.io[c]
  }

  function Pointer(mem: Memory, at: nat): word
    requires at + 1 < SIZE
  {
    Word(mem[at], mem[at + 1])
  }

  /** The cell that the k-th byte of a header goes to. */
  function HeaderCell(k: nat): nat
    requires k < 6
  {
    [MEM, BANK, START, START + 1, END, END + 1][k]
  }

  /** Macro `next`: step the 16-bit start pointer, and say whether the loop goes round again. */
  function Increment(mem: Memory): Memory {
    var low: int, high: int := mem[START], mem[START + 1];
    if Lo(low + 1) == 0 then mem[START := Lo(low + 1)][START + 1 := Lo(high + 1)]
    else mem[START := Lo(low + 1)]
  }

  predicate AtEnd(mem: Memory) {
    mem[START + 1] == mem[END + 1] && mem[START] == mem[END]
  }

  /** Macro `checkBasic`: does the transfer begin where BASIC programs do? */
  predicate AtBasicStart(mem: Memory) {
    mem[START] == mem[BSTART] && mem[START + 1] == mem[BSTART + 1]
  }

  /** Macro `relinkBasic`: the end of the transfer becomes the end of the BASIC program. */
  function Relinked(mem: Memory, basic: bool): Memory {
    if basic then mem[BEND := mem[END]][BEND + 1 := mem[END + 1]] else mem
  }

  /** The end of a load: the slow path has left $37 in the port. */
  function LoadEnd(mem: Memory, basic: bool, fast: bool): Memory {
    Relinked(if fast then mem else mem[PORT := NORMAL], basic)
  }

  /** `and #$7f`, `cmp #$37` */
  predicate LoadsFast(memory: byte) {
    memory % 0x80 == NORMAL
  }

  /** A store of the fast path, which leaves the port alone, can hit I/O. */
  predicate Stored(port: byte, fast: bool, c: word) {
    !(fast && ViewOf(port, c).Io?)
  }

  /** One byte read from the port: dispatch in `irq`, `readHeader`, or a round of the load loop. */
  function Take(m: Machine, b: byte): Machine {
    match m.phase
    case Idle =>
      if b == CMD_LOAD || b == CMD_SAVE then m.(phase := Header(b, 0))
      else if b in {3, 4, 5, 6, 7, 0xfe} then m.(phase := Elsewhere)
      else m
    case Header(command, k) =>
      if k >= 6 then m else
      var mem: Memory := m.mem[HeaderCell(k) := b];
      if k < 5 then m.(mem := mem, phase := Header(command, k + 1))
      else if command == CMD_LOAD then m.(mem := mem, phase := Loading(AtBasicStart(mem), LoadsFast(mem[MEM])))
      else m.(mem := mem, phase := Turning)
    case Loading(basic, fast) =>
      var p := Pointer(m.mem, START);
      if p in Vital(m.world) || !Stored(m.mem[PORT], fast, p) then m.(phase := Derailed) else
      var mem := Increment(m.mem[p := b]);
      if AtEnd(mem) then m.(mem := LoadEnd(mem, basic, fast), phase := Idle) else m.(mem := mem)
    case _ => m
  }

  /** Macro `output` has seen the turnaround strobe. */
  function Turn(m: Machine): Machine {
    if m.phase.Turning? then m.(phase := Saving(m.mem[MEM] == NORMAL)) else m
  }

  /** The byte that a round of the save loop puts on the port. */
  function Offer(m: Machine): byte {
    var config := if m.phase == Saving(false) then m.mem[MEM] else m.mem[PORT];
    Seen(m.mem, m.world, config, Pointer(m.mem, START))
  }

  /** The rest of a round of the save loop. */
  function Given(m: Machine): Machine {
    var mem := Increment(m.mem);
    if !AtEnd(mem) then m.(mem := mem)
    else m.(mem := if m.phase == Saving(false) then mem[PORT := NORMAL] else mem, phase := Idle)
  }

  function TakeAll(m: Machine, bytes: seq<byte>): Machine {
    if bytes == [] then m else Take(TakeAll(m, bytes[..|bytes| - 1]), bytes[|bytes| - 1])
  }

  lemma {:induction false} TakeAllConcat(m: Machine, a: seq<byte>, b: seq<byte>)
    ensures TakeAll(m, a + b) == TakeAll(TakeAll(m, a), b)
  {
    if b == [] {
      assert a + b == a;
    } else {
      var init := b[..|b| - 1];
      assert (a + b)[..|a + b| - 1] == a + init;
      TakeAllConcat(m, a, init);
    }
  }

  /** After `n` rounds of the save loop. */
  function GiveN(m: Machine, n: nat): Machine {
    if n == 0 then m else Given(GiveN(m, n - 1))
  }

  function Offers(m: Machine, n: nat): (bytes: seq<byte>)
    ensures |bytes| == n
    ensures forall k :: 0 <= k < n ==> bytes[k] == Offer(GiveN(m, k))
  {
    seq(n, k requires 0 <= k < n => Offer(GiveN(m, k)))
  }

  // ---- what the PC sends (xlink.c) -------------------------------------------------------

  /** The seven bytes of xlink_load and xlink_save, after the ping. */
  function Command(command: byte, memory: byte, bank: byte, address: word, size: nat): seq<byte> {
    var end := ToWord(address + size);
    [CMD_PING, command, memory, bank, Lo(address), Hi(address), Lo(end), Hi(end)]
  }

  function LoadBytes(memory: byte, bank: byte, address: word, data: seq<byte>): seq<byte> {
    Command(CMD_LOAD, memory, bank, address, |data|) + data
  }

  function SaveBytes(memory: byte, bank: byte, address: word, size: nat): seq<byte> {
    Command(CMD_SAVE, memory, bank, address, size)
  }

  // ---- the header -----------------------------------------------------------------------

  /** Memory after the first `k` header bytes behind the ping and the command. */
  function WithHeader(mem: Memory, header: seq<byte>, k: nat): Memory
    requires |header| == 8 && k <= 6
  {
    if k == 0 then mem else WithHeader(mem, header, k - 1)[HeaderCell(k - 1) := header[k + 1]]
  }

  lemma {:induction false} HeaderTaken(m: Machine, header: seq<byte>, k: nat)
    requires m.phase.Idle? && |header| == 8 && k <= 8
    requires header[0] == CMD_PING && header[1] in {CMD_LOAD, CMD_SAVE}
    ensures var mem := WithHeader(m.mem, header, if k <= 2 then 0 else k - 2);
            TakeAll(m, header[..k]) ==
            m.(mem := mem,
               phase := if k <= 1 then Idle else if k < 8 then Header(header[1], k - 2)
                        else if header[1] == CMD_LOAD then Loading(AtBasicStart(mem), LoadsFast(mem[MEM]))
                        else Turning)
  {
    if k > 0 {
      HeaderTaken(m, header, k - 1);
      assert header[..k][..k - 1] == header[..k - 1];
    }
  }

  /** The cells the server itself uses. */
  const WORKSPACE := {START, START + 1, END, END + 1, MEM, BANK}

  lemma HeaderCells(mem: Memory, h: seq<byte>)
    requires |h| == 8
    ensures var w := WithHeader(mem, h, 6);
            && w[MEM] == h[2] && w[BANK] == h[3]
            && w[START] == h[4] && w[START + 1] == h[5] && w[END] == h[6] && w[END + 1] == h[7]
            && forall c :: 0 <= c < SIZE && c !in WORKSPACE ==> w[c] == mem[c]
  {
    var w2 := WithHeader(mem, h, 2);
    assert w2 == WithHeader(mem, h, 1)[BANK := h[3]] == mem[MEM := h[2]][BANK := h[3]];
    var w4 := WithHeader(mem, h, 4);
    assert w4 == WithHeader(mem, h, 3)[START + 1 := h[5]] == w2[START := h[4]][START + 1 := h[5]];
    var w6 := WithHeader(mem, h, 6);
    assert w6 == WithHeader(mem, h, 5)[END + 1 := h[7]] == w4[END := h[6]][END + 1 := h[7]];
  }

  lemma CommandPointers(mem: Memory, command: byte, memory: byte, bank: byte, address: word, size: nat)
    ensures var w := WithHeader(mem, Command(command, memory, bank, address, size), 6);
            && w == PointingAt(w, address)
            && Pointer(w, END) == ToWord(address + size)
            && w[MEM] == memory && w[BANK] == bank
  {
    HeaderCells(mem, Command(command, memory, bank, address, size));
    SplitWord(ToWord(address + size));
  }

  // ---- the increment-and-compare loop ----------------------------------------------------

  /** Memory with the start pointer set. */
  function PointingAt(mem: Memory, p: int): Memory {
    mem[START := Lo(p)][START + 1 := Hi(p)]
  }

  lemma PointerReads(mem: Memory, p: int)
    ensures Pointer(PointingAt(mem, p), START) == ToWord(p)
  {
    HalvesOfWord(p);
    SplitWord(ToWord(p));
  }

  /** Stepping a 16-bit value by its halves. */
  lemma StepHalves(p: int)
    ensures Lo(p + 1) == Lo(Lo(p) + 1)
    ensures Hi(p + 1) == if Lo(Lo(p) + 1) == 0 then Lo(Hi(p) + 1) else Hi(p)
  {
    var q, r := p / 0x100, Lo(p);
    assert p == 0x100 * q + r;
    if r == 0xff {
      assert p + 1 == 0x100 * (q + 1);
    } else {
      assert (p + 1) / 0x100 == q;
    }
  }

  lemma IncrementSteps(mem: Memory, p: int)
    ensures Increment(PointingAt(mem, p)) == PointingAt(mem, p + 1)
  {
    StepHalves(p);
    IncrementHalves(mem, Lo(p), Hi(p), Lo(p + 1), Hi(p + 1));
  }

  lemma IncrementHalves(mem: Memory, lo: byte, hi: byte, lo': byte, hi': byte)
    requires lo' == Lo(lo + 1) && hi' == if lo' == 0 then Lo(hi + 1) else hi
    ensures Increment(mem[START := lo][START + 1 := hi]) == mem[START := lo'][START + 1 := hi']
  {
  }

  /** How often the loop runs for a given size: once more than the pointer has to be stepped. */
  function Rounds(size: nat): nat {
    if size % SIZE == 0 then SIZE else size % SIZE
  }

  /** The loop runs `size` times exactly for the sizes 1 to 65536. */
  lemma RoundsExact(size: nat)
    ensures Rounds(size) == size <==> 1 <= size <= SIZE
  {
  }

  lemma EndReached(mem: Memory, address: word, size: nat, k: nat)
    requires Pointer(mem, END) == ToWord(address + size) && 1 <= k <= Rounds(size)
    ensures AtEnd(PointingAt(mem, address + k)) <==> k == Rounds(size)
  {
    PointerReads(mem, address + k);
    PointersMeet(PointingAt(mem, address + k), ToWord(address + k), ToWord(address + size));
    WrapsOnce(address, size, k);
  }

  lemma PointersMeet(mem: Memory, start: word, end: word)
    requires Pointer(mem, START) == start && Pointer(mem, END) == end
    ensures AtEnd(mem) <==> start == end
  {
  }

  lemma WrapsOnce(address: word, size: nat, k: nat)
    requires 1 <= k <= Rounds(size)
    ensures ToWord(address + k) == ToWord(address + size) <==> k == Rounds(size)
  {
    var q := size / SIZE;
    assert address + size == (address + size % SIZE) + SIZE * q;
  }

  // ---- load ---------------------------------------------------------------------------------

  /** One of the `size` cells from `address` on, going round at the end of memory. */
  predicate Addressed(c: word, address: word, size: nat) {
    ToWord(c - address) < size
  }

  predicate Spares(cells: set<nat>, address: word, size: nat) {
    forall c: word :: c in cells ==> !Addressed(c, address, size)
  }

  /** The cells the transfer loop itself uses. */
  const POINTERS := {START, START + 1, END, END + 1}

  lemma SparesFewer(cells: set<nat>, address: word, size: nat, fewer: nat)
    requires fewer <= size && Spares(cells, address, size)
    ensures Spares(cells, address, fewer)
  {
  }

  /** What a load goes by: the world, the port as it finds it, and its two choices. */
  datatype Way = Way(world: World, port: byte, basic: bool, fast: bool)

  /** Every store of a load reaches RAM. */
  predicate StoresReach(way: Way, address: word, size: nat) {
    forall c: word :: Addressed(c, address, size) ==> Stored(way.port, way.fast, c)
  }

  /** What a load must stay clear of for its loop to run its course. */
  predicate Clear(way: Way, address: word, size: nat) {
    Spares(POINTERS, address, size) && Spares(Vital(way.world), address, size) && StoresReach(way, address, size)
  }

  lemma ClearFewer(way: Way, address: word, size: nat, fewer: nat)
    requires fewer <= size && Clear(way, address, size)
    ensures Clear(way, address, fewer)
  {
    SparesFewer(POINTERS, address, size, fewer);
    SparesFewer(Vital(way.world), address, size, fewer);
    assert forall c: word :: Addressed(c, address, fewer) ==> Addressed(c, address, size);
  }

  lemma CellOf(c: word, address: word, k: nat)
    requires k < SIZE
    ensures ToWord(address + k) == c <==> ToWord(c - address) == k
  {
  }

  function Store(mem: Memory, address: word, data: seq<byte>): Memory {
    if data == [] then mem
    else
      var n := |data| - 1;
      Store(mem, address, data[..n])[ToWord(address + n) := data[n]]
  }

  lemma {:induction false} StoreCells(mem: Memory, address: word, data: seq<byte>)
    requires |data| <= SIZE
    ensures forall c: word :: Store(mem, address, data)[c] ==
              if Addressed(c, address, |data|) then data[ToWord(c - address)] else mem[c]
  {
    if data != [] {
      var n := |data| - 1;
      StoreCells(mem, address, data[..n]);
      forall c: word
        ensures Store(mem, address, data)[c] ==
                if Addressed(c, address, |data|) then data[ToWord(c - address)] else mem[c]
      {
        CellOf(c, address, n);
      }
    }
  }

  lemma StoreSparesPointers(mem: Memory, address: word, data: seq<byte>, way: Way)
    requires |data| <= SIZE && Clear(way, address, |data|)
    ensures Pointer(Store(mem, address, data), START) == Pointer(mem, START)
    ensures Pointer(Store(mem, address, data), END) == Pointer(mem, END)
    ensures Store(mem, address, data)[PORT] == mem[PORT]
  {
    StoreCells(mem, address, data);
    assert PORT in Vital(way.world);
  }

  /** The server with its pointer at `p` and `left` rounds to go: in the loop, or behind it. */
  function InLoop(mem: Memory, p: int, left: int, way: Way): Machine {
    if left != 0 then Machine(PointingAt(mem, p), Loading(way.basic, way.fast), way.world)
    else Machine(LoadEnd(PointingAt(mem, p), way.basic, way.fast), Idle, way.world)
  }

  /** The store of one round lands where the pointer points, then the pointer is stepped. */
  lemma LoadRound(mem: Memory, p: int, b: byte, left: int, way: Way)
    requires ToWord(p) !in POINTERS && ToWord(p) !in Vital(way.world)
    requires mem[PORT] == way.port && Stored(way.port, way.fast, ToWord(p))
    requires left != 0 && (AtEnd(PointingAt(mem[ToWord(p) := b], p + 1)) <==> left == 1)
    ensures Take(InLoop(mem, p, left, way), b) == InLoop(mem[ToWord(p) := b], p + 1, left - 1, way)
  {
    PointerReads(mem, p);
    assert PointingAt(mem, p)[ToWord(p) := b] == PointingAt(mem[ToWord(p) := b], p);
    IncrementSteps(mem[ToWord(p) := b], p);
  }

  /** Each cell of a clear range takes a store. */
  lemma ClearCell(way: Way, address: word, size: nat, n: nat)
    requires n < size <= SIZE && Clear(way, address, size)
    ensures var c := ToWord(address + n);
            c !in POINTERS && c !in Vital(way.world) && Stored(way.port, way.fast, c)
  {
    var c := ToWord(address + n);
    CellOf(c, address, n);
    assert Addressed(c, address, size);
  }

  /** The memories before and after the round that takes the last byte of `data`. */
  lemma StoreLast(mem: Memory, address: word, size: nat, data: seq<byte>, n: nat, way: Way)
    requires n + 1 == |data| <= Rounds(size) && Clear(way, address, |data|) && mem[PORT] == way.port
    requires Pointer(mem, END) == ToWord(address + size)
    ensures var before, after := Store(mem, address, data[..n]), Store(mem, address, data);
            && after == before[ToWord(address + n) := data[n]] && before[PORT] == way.port
            && (AtEnd(PointingAt(after, address + n + 1)) <==> Rounds(size) - n == 1)
  {
    StoreSparesPointers(mem, address, data, way);
    ClearFewer(way, address, |data|, n);
    StoreSparesPointers(mem, address, data[..n], way);
    EndReached(Store(mem, address, data), address, size, |data|);
  }

  lemma TakeLast(m: Machine, data: seq<byte>, before: Machine, after: Machine)
    requires data != [] && TakeAll(m, data[..|data| - 1]) == before && Take(before, data[|data| - 1]) == after
    ensures TakeAll(m, data) == after
  {
  }

  lemma LoadStep(before: Memory, after: Memory, address: word, data: seq<byte>, n: nat, left: int, way: Way)
    requires n + 1 == |data| <= SIZE && Clear(way, address, |data|)
    requires after == before[ToWord(address + n) := data[n]] && before[PORT] == way.port
    requires left != 0 && (AtEnd(PointingAt(after, address + n + 1)) <==> left == 1)
    ensures Take(InLoop(before, address + n, left, way), data[n]) == InLoop(after, address + |data|, left - 1, way)
  {
    ClearCell(way, address, |data|, n);
    LoadRound(before, address + n, data[n], left, way);
  }

  lemma LoadOnce(m: Machine, before: Memory, after: Memory, address: word, data: seq<byte>, n: nat, left: int,
                 way: Way)
    requires n + 1 == |data| <= SIZE && Clear(way, address, |data|)
    requires after == before[ToWord(address + n) := data[n]] && before[PORT] == way.port
    requires left != 0 && (AtEnd(PointingAt(after, address + n + 1)) <==> left == 1)
    requires TakeAll(m, data[..n]) == InLoop(before, address + n, left, way)
    ensures TakeAll(m, data) == InLoop(after, address + |data|, left - 1, way)
  {
    LoadStep(before, after, address, data, n, left, way);
    TakeLast(m, data, InLoop(before, address + n, left, way), InLoop(after, address + |data|, left - 1, way));
  }

  lemma {:induction false} LoadLoop(mem: Memory, address: word, size: nat, data: seq<byte>, way: Way)
    requires Pointer(mem, END) == ToWord(address + size) && mem[PORT] == way.port
    requires |data| <= Rounds(size) && Clear(way, address, |data|)
    ensures TakeAll(InLoop(mem, address, Rounds(size), way), data) ==
            InLoop(Store(mem, address, data), address + |data|, Rounds(size) - |data|, way)
  {
    if data != [] {
      var n := |data| - 1;
      ClearFewer(way, address, |data|, n);
      LoadLoop(mem, address, size, data[..n], way);
      StoreLast(mem, address, size, data, n, way);
      LoadOnce(InLoop(mem, address, Rounds(size), way), Store(mem, address, data[..n]), Store(mem, address, data),
               address, data, n, Rounds(size) - n, way);
    }
  }

  /** The load begins where the BASIC start pointer points. */
  predicate IsBasic(m: Machine, address: word) {
    Pointer(m.mem, BSTART) == address
  }

  /** checkBasic compares the pointers byte by byte, after the header has set one of them. */
  lemma BasicChecked(mem: Memory, h: seq<byte>, address: word)
    requires |h| == 8 && h[4] == Lo(address) && h[5] == Hi(address)
    ensures AtBasicStart(WithHeader(mem, h, 6)) <==> Pointer(mem, BSTART) == address
  {
    HeaderCells(mem, h);
    SplitWord(address);
    SameWord(mem[BSTART], mem[BSTART + 1], Lo(address), Hi(address));
  }

  lemma SameWord(lo: byte, hi: byte, l: byte, h: byte)
    ensures Word(lo, hi) == Word(l, h) <==> lo == l && hi == h
  {
  }

  /** What a load to `address` with the configuration `memory` goes by. */
  function WayOf(m: Machine, memory: byte, address: word): Way {
    Way(m.world, m.mem[PORT], IsBasic(m, address), LoadsFast(memory))
  }

  /** The state of the server once the seven header bytes of xlink_load have arrived. */
  lemma LoadHeader(m: Machine, memory: byte, bank: byte, address: word, size: nat)
    requires m.phase.Idle?
    ensures var h := Command(CMD_LOAD, memory, bank, address, size);
            TakeAll(m, h) == InLoop(WithHeader(m.mem, h, 6), address, Rounds(size), WayOf(m, memory, address))
  {
    var h := Command(CMD_LOAD, memory, bank, address, size);
    var w := WithHeader(m.mem, h, 6);
    assert h[..8] == h;
    HeaderTaken(m, h, 8);
    BasicChecked(m.mem, h, address);
    CommandPointers(m.mem, CMD_LOAD, memory, bank, address, size);
    StartLoop(w, address, Rounds(size), WayOf(m, memory, address));
  }

  lemma StartLoop(w: Memory, address: word, rounds: nat, way: Way)
    requires w == PointingAt(w, address) && rounds > 0
    ensures InLoop(w, address, rounds, way) == Machine(w, Loading(way.basic, way.fast), way.world)
  {
  }

  /** What the header of a load leaves for its loop to go by. */
  lemma LoadStart(m: Machine, memory: byte, bank: byte, address: word, size: nat)
    requires m.phase.Idle? && 1 <= size <= SIZE
    ensures var h := Command(CMD_LOAD, memory, bank, address, size);
            var w := WithHeader(m.mem, h, 6);
            && TakeAll(m, h) == InLoop(w, address, size, WayOf(m, memory, address))
            && Pointer(w, END) == ToWord(address + size) && w[PORT] == m.mem[PORT]
  {
    RoundsExact(size);
    LoadHeader(m, memory, bank, address, size);
    CommandPointers(m.mem, CMD_LOAD, memory, bank, address, size);
    HeaderCells(m.mem, Command(CMD_LOAD, memory, bank, address, size));
  }

  /** The server after the header of a load of `size` bytes and the first of them. */
  lemma LoadState(m: Machine, memory: byte, bank: byte, address: word, size: nat, data: seq<byte>)
    requires m.phase.Idle? && |data| <= size && 1 <= size <= SIZE
    requires Clear(WayOf(m, memory, address), address, |data|)
    ensures var h := Command(CMD_LOAD, memory, bank, address, size);
            TakeAll(m, h + data) ==
            InLoop(Store(WithHeader(m.mem, h, 6), address, data), address + |data|, size - |data|,
                   WayOf(m, memory, address))
  {
    var h := Command(CMD_LOAD, memory, bank, address, size);
    LoadStart(m, memory, bank, address, size);
    LoadRounds(m, h, WithHeader(m.mem, h, 6), address, size, data, WayOf(m, memory, address));
  }

  lemma LoadRounds(m: Machine, h: seq<byte>, w: Memory, address: word, size: nat, data: seq<byte>, way: Way)
    requires Pointer(w, END) == ToWord(address + size) && w[PORT] == way.port
    requires |data| <= size && 1 <= size <= SIZE && Clear(way, address, |data|)
    requires TakeAll(m, h) == InLoop(w, address, size, way)
    ensures TakeAll(m, h + data) == InLoop(Store(w, address, data), address + |data|, size - |data|, way)
  {
    RoundsExact(size);
    LoadLoop(w, address, size, data, way);
    TakeAllConcat(m, h, data);
  }

  /** The cells that a load changes on its own account behind a BASIC program. */
  const BASIC_END: set<nat> := {BEND, BEND + 1}

  /**
    What a cell holds after a load: the BASIC end pointer last, the data, the port of the slow
    path, or what it held before.
   */
  function Loaded(m: Machine, memory: byte, address: word, data: seq<byte>, c: word): byte
    requires |data| <= SIZE
  {
    if IsBasic(m, address) && c == BEND then Lo(ToWord(address + |data|))
    else if IsBasic(m, address) && c == BEND + 1 then Hi(ToWord(address + |data|))
    else if Addressed(c, address, |data|) then data[ToWord(c - address)]
    else if c == PORT && !LoadsFast(memory) then NORMAL
    else m.mem[c]
  }

  /** Pointers at the end, and everything but the workspace as it should be. */
  ghost predicate IsLoaded(m: Machine, memory: byte, after: Memory, address: word, data: seq<byte>)
    requires |data| <= SIZE
  {
    && Pointer(after, START) == Pointer(after, END) == ToWord(address + |data|)
    && forall c: word :: Addressed(c, address, |data|) || c !in WORKSPACE ==>
         after[c] == Loaded(m, memory, address, data, c)
  }

  /**
    xlink_load of 1 to 65536 bytes over memory that the server can spare: it is ready for the
    next command exactly after the last byte.  Outside its workspace precisely the addressed
    cells have changed, to the bytes sent, and behind a BASIC program its end pointer; both
    transfer pointers stand at the end.
   */
  lemma LoadExact(m: Machine, memory: byte, bank: byte, address: word, data: seq<byte>)
    requires m.phase.Idle? && 1 <= |data| <= SIZE && Clear(WayOf(m, memory, address), address, |data|)
    ensures var after := TakeAll(m, LoadBytes(memory, bank, address, data));
            after.phase.Idle? && after.world == m.world && IsLoaded(m, memory, after.mem, address, data)
  {
    var h := Command(CMD_LOAD, memory, bank, address, |data|);
    LoadState(m, memory, bank, address, |data|, data);
    LoadedCells(m, memory, h, address, data);
    LoadBehind(m, memory, Store(WithHeader(m.mem, h, 6), address, data),
               TakeAll(m, LoadBytes(memory, bank, address, data)), address, data);
  }

  lemma LoadBehind(m: Machine, memory: byte, mem: Memory, after: Machine, address: word, data: seq<byte>)
    requires |data| <= SIZE && after == InLoop(mem, address + |data|, 0, WayOf(m, memory, address))
    requires IsLoaded(m, memory, LoadEnd(PointingAt(mem, address + |data|), IsBasic(m, address), LoadsFast(memory)),
                      address, data)
    ensures after.phase.Idle? && after.world == m.world && IsLoaded(m, memory, after.mem, address, data)
  {
  }

  /** The memory behind the loop, cell by cell. */
  ghost predicate IsLoadEnd(mem: Memory, after: Memory, p: int, basic: bool, fast: bool) {
    && after[START] == Lo(p) && after[START + 1] == Hi(p)
    && after[END] == mem[END] && after[END + 1] == mem[END + 1]
    && after[PORT] == (if fast then mem[PORT] else NORMAL)
    && (basic ==> after[BEND] == mem[END] && after[BEND + 1] == mem[END + 1])
    && forall c: word :: c !in {START, START + 1, PORT} && !(basic && c in BASIC_END) ==> after[c] == mem[c]
  }

  lemma LoadEndCells(mem: Memory, p: int, basic: bool, fast: bool)
    ensures IsLoadEnd(mem, LoadEnd(PointingAt(mem, p), basic, fast), p, basic, fast)
  {
  }

  /** `mem` is `w` with the data stored. */
  ghost predicate IsStored(w: Memory, mem: Memory, address: word, data: seq<byte>)
    requires |data| <= SIZE
  {
    && mem[END] == w[END] && mem[END + 1] == w[END + 1]
    && forall c: word ::
         mem[c] == (if Addressed(c, address, |data|) then data[ToWord(c - address)] else w[c])
         && (c in {START, START + 1, PORT} ==> !Addressed(c, address, |data|))
  }

  /** What the loop leaves of a range that is clear. */
  lemma StoredCells(w: Memory, address: word, data: seq<byte>, way: Way)
    requires |data| <= SIZE && Clear(way, address, |data|)
    ensures IsStored(w, Store(w, address, data), address, data)
  {
    StoreCells(w, address, data);
    assert START in POINTERS && START + 1 in POINTERS && END in POINTERS && END + 1 in POINTERS;
    assert PORT in Vital(way.world);
  }

  lemma LoadedCells(m: Machine, memory: byte, h: seq<byte>, address: word, data: seq<byte>)
    requires |h| == 8 && |data| <= SIZE && Clear(WayOf(m, memory, address), address, |data|)
    requires h[6] == Lo(ToWord(address + |data|)) && h[7] == Hi(ToWord(address + |data|))
    ensures var mem := Store(WithHeader(m.mem, h, 6), address, data);
            IsLoaded(m, memory, LoadEnd(PointingAt(mem, address + |data|), IsBasic(m, address), LoadsFast(memory)),
                     address, data)
  {
    var w := WithHeader(m.mem, h, 6);
    HeaderCells(m.mem, h);
    StoredCells(w, address, data, WayOf(m, memory, address));
    LoadedVia(m, memory, w, Store(w, address, data), address, data);
  }

  lemma LoadedVia(m: Machine, memory: byte, w: Memory, mem: Memory, address: word, data: seq<byte>)
    requires |data| <= SIZE && IsStored(w, mem, address, data)
    requires forall c :: 0 <= c < SIZE && c !in WORKSPACE ==> w[c] == m.mem[c]
    requires mem[END] == Lo(ToWord(address + |data|)) && mem[END + 1] == Hi(ToWord(address + |data|))
    ensures IsLoaded(m, memory, LoadEnd(PointingAt(mem, address + |data|), IsBasic(m, address), LoadsFast(memory)),
                     address, data)
  {
    var p, basic, fast := address + |data|, IsBasic(m, address), LoadsFast(memory);
    LoadEndCells(mem, p, basic, fast);
    LoadedEnds(m, memory, w, mem, LoadEnd(PointingAt(mem, p), basic, fast), p, address, data);
  }

  lemma LoadedEnds(m: Machine, memory: byte, w: Memory, mem: Memory, after: Memory, p: int, address: word,
                   data: seq<byte>)
    requires |data| <= SIZE && p == address + |data| && IsStored(w, mem, address, data)
    requires forall c :: 0 <= c < SIZE && c !in WORKSPACE ==> w[c] == m.mem[c]
    requires mem[END] == Lo(ToWord(p)) && mem[END + 1] == Hi(ToWord(p))
    requires IsLoadEnd(mem, after, p, IsBasic(m, address), LoadsFast(memory))
    ensures IsLoaded(m, memory, after, address, data)
  {
    PointersAtEnd(after, p);
    LoadedIs(m, memory, w, mem, after, address, data, ToWord(p));
  }

  lemma PointersAtEnd(after: Memory, p: int)
    requires after[START] == Lo(p) && after[START + 1] == Hi(p)
    requires after[END] == Lo(ToWord(p)) && after[END + 1] == Hi(ToWord(p))
    ensures Pointer(after, START) == Pointer(after, END) == ToWord(p)
  {
    SplitWord(ToWord(p));
    HalvesOfWord(p);
  }

  lemma LoadedIs(m: Machine, memory: byte, w: Memory, mem: Memory, after: Memory, address: word, data: seq<byte>,
                 end: word)
    requires |data| <= SIZE && end == ToWord(address + |data|) && IsStored(w, mem, address, data)
    requires forall c :: 0 <= c < SIZE && c !in WORKSPACE ==> w[c] == m.mem[c]
    requires IsBasic(m, address) ==> after[BEND] == Lo(end) && after[BEND + 1] == Hi(end)
    requires after[PORT] == if LoadsFast(memory) then mem[PORT] else NORMAL
    requires forall c: word ::
               c !in {START, START + 1, PORT} && !(IsBasic(m, address) && c in BASIC_END) ==> after[c] == mem[c]
    ensures forall c: word :: Addressed(c, address, |data|) || c !in WORKSPACE ==>
              after[c] == Loaded(m, memory, address, data, c)
  {
  }

  /** Until the last byte of a load the server is in the middle of it. */
  lemma LoadUnfinished(m: Machine, memory: byte, bank: byte, address: word, data: seq<byte>, k: nat)
    requires m.phase.Idle? && 1 <= |data| <= SIZE && Clear(WayOf(m, memory, address), address, |data|)
    requires k < |LoadBytes(memory, bank, address, data)|
    ensures var phase := TakeAll(m, LoadBytes(memory, bank, address, data)[..k]).phase;
            if k < 2 then phase.Idle? else phase.Header? || phase.Loading?
  {
    if k <= 8 {
      var h := Command(CMD_LOAD, memory, bank, address, |data|);
      assert LoadBytes(memory, bank, address, data)[..k] == h[..k];
      HeaderTaken(m, h, k);
    } else {
      var h, first := Command(CMD_LOAD, memory, bank, address, |data|), data[..k - 8];
      assert LoadBytes(memory, bank, address, data)[..k] == h + first;
      ClearFewer(WayOf(m, memory, address), address, |data|, k - 8);
      LoadState(m, memory, bank, address, |data|, first);
    }
  }

  /** The first address of a range that meets a set of cells. */
  lemma {:induction false} FirstMet(cells: set<nat>, address: word, size: nat) returns (k: nat)
    requires size <= SIZE && !Spares(cells, address, size)
    ensures k < size && ToWord(address + k) in cells && Spares(cells, address, k)
  {
    if Spares(cells, address, size - 1) {
      var c: word :| c in cells && Addressed(c, address, size);
      k := ToWord(c - address);
      CellOf(c, address, k);
    } else {
      k := FirstMet(cells, address, size - 1);
    }
  }

  // ---- save ---------------------------------------------------------------------------------

  /** The server with its pointer at `p` and `left` bytes to give. */
  function Giving(mem: Memory, p: int, left: int, fast: bool, world: World): Machine {
    if left != 0 then Machine(PointingAt(mem, p), Saving(fast), world)
    else Machine(if fast then PointingAt(mem, p) else PointingAt(mem, p)[PORT := NORMAL], Idle, world)
  }

  lemma GiveOnce(mem: Memory, p: int, left: int, fast: bool, world: World)
    requires left != 0 && (AtEnd(PointingAt(mem, p + 1)) <==> left == 1)
    ensures Given(Giving(mem, p, left, fast, world)) == Giving(mem, p + 1, left - 1, fast, world)
  {
    IncrementSteps(mem, p);
  }

  lemma {:induction false} SaveLoop(mem: Memory, address: word, size: nat, n: nat, fast: bool, world: World)
    requires Pointer(mem, END) == ToWord(address + size) && n <= Rounds(size)
    ensures GiveN(Giving(mem, address, Rounds(size), fast, world), n)
         == Giving(mem, address + n, Rounds(size) - n, fast, world)
  {
    if n > 0 {
      SaveLoop(mem, address, size, n - 1, fast, world);
      EndReached(mem, address, size, n);
      GiveOnce(mem, address + n - 1, Rounds(size) - (n - 1), fast, world);
    }
  }

  /** The configuration a save reads with. */
  function SaveConfig(mem: Memory, memory: byte): byte {
    if memory == NORMAL then mem[PORT] else memory
  }

  /** What a save returns for cell `c`: the two pointer cells show the pointer itself. */
  function Shown(mem: Memory, world: World, config: byte, c: word): byte {
    if c == START then START else if c == START + 1 then 0 else Seen(mem, world, config, c)
  }

  lemma PointerShows(mem: Memory, lo: byte, hi: byte, world: World, config: byte)
    ensures Seen(mem[START := lo][START + 1 := hi], world, config, Word(lo, hi))
         == Shown(mem, world, config, Word(lo, hi))
  {
  }

  /** The state of the server once the header and the turnaround strobe of xlink_save have arrived. */
  lemma SaveHeader(m: Machine, memory: byte, bank: byte, address: word, size: nat)
    requires m.phase.Idle?
    ensures var h := SaveBytes(memory, bank, address, size);
            && TakeAll(m, h) == m.(mem := WithHeader(m.mem, h, 6), phase := Turning)
            && Turn(TakeAll(m, h)) == m.(mem := WithHeader(m.mem, h, 6), phase := Saving(memory == NORMAL))
  {
    var h := SaveBytes(memory, bank, address, size);
    assert h[..8] == h;
    HeaderTaken(m, h, 8);
    HeaderCells(m.mem, h);
  }

  lemma SaveRounds(mem: Memory, address: word, size: nat, fast: bool, world: World, s: Machine, config: byte)
    requires Pointer(mem, END) == ToWord(address + size) && s == Giving(mem, address, Rounds(size), fast, world)
    requires config == if fast then mem[PORT] else mem[MEM]
    ensures forall n :: 0 <= n < Rounds(size) ==> GiveN(s, n).phase.Saving?
    ensures GiveN(s, Rounds(size)).phase.Idle?
    ensures forall k :: 0 <= k < Rounds(size) ==>
              Offers(s, Rounds(size))[k] == Shown(mem, world, config, ToWord(address + k))
  {
    SaveLoop(mem, address, size, Rounds(size), fast, world);
    forall n | 0 <= n < Rounds(size)
      ensures GiveN(s, n).phase.Saving? && Offer(GiveN(s, n)) == Shown(mem, world, config, ToWord(address + n))
    {
      SaveLoop(mem, address, size, n, fast, world);
      RoundShows(mem, address + n, fast, world, Rounds(size) - n, GiveN(s, n), config);
    }
  }

  lemma RoundShows(mem: Memory, p: nat, fast: bool, world: World, left: int, g: Machine, config: byte)
    requires left != 0 && g == Giving(mem, p, left, fast, world)
    requires config == if fast then mem[PORT] else mem[MEM]
    ensures g.phase.Saving? && Offer(g) == Shown(mem, world, config, ToWord(p))
  {
    PointerReads(mem, p);
    PointerShows(mem, Lo(p), Hi(p), world, config);
  }

  /** What the header and the turnaround of a save leave for its loop to go by. */
  lemma SaveStart(m: Machine, memory: byte, bank: byte, address: word, size: nat)
    requires m.phase.Idle?
    ensures var h := SaveBytes(memory, bank, address, size);
            var w, fast := WithHeader(m.mem, h, 6), memory == NORMAL;
            && Turn(TakeAll(m, h)) == Giving(w, address, Rounds(size), fast, m.world)
            && Pointer(w, END) == ToWord(address + size)
            && SaveConfig(m.mem, memory) == if fast then w[PORT] else w[MEM]
  {
    var h := SaveBytes(memory, bank, address, size);
    SaveHeader(m, memory, bank, address, size);
    CommandPointers(m.mem, CMD_SAVE, memory, bank, address, size);
    HeaderCells(m.mem, h);
    StartGiving(m, WithHeader(m.mem, h, 6), address, Rounds(size), memory == NORMAL);
  }

  lemma StartGiving(m: Machine, w: Memory, address: word, rounds: nat, fast: bool)
    requires w == PointingAt(w, address) && rounds > 0
    ensures m.(mem := w, phase := Saving(fast)) == Giving(w, address, rounds, fast, m.world)
  {
  }

  /**
    A save of any size makes the server offer `Rounds(size)` bytes, then stop: what the CPU sees
    of the range with the configuration asked for, or for $37 with the one in the port.
   */
  lemma SaveExact(m: Machine, memory: byte, bank: byte, address: word, size: nat)
    requires m.phase.Idle?
    ensures var h := SaveBytes(memory, bank, address, size);
            var s, w := Turn(TakeAll(m, h)), WithHeader(m.mem, h, 6);
            && (forall n :: 0 <= n < Rounds(size) ==> GiveN(s, n).phase.Saving?)
            && GiveN(s, Rounds(size)).phase.Idle?
            && forall k :: 0 <= k < Rounds(size) ==>
                 Offers(s, Rounds(size))[k] == Shown(w, m.world, SaveConfig(m.mem, memory), ToWord(address + k))
  {
    var h := SaveBytes(memory, bank, address, size);
    SaveStart(m, memory, bank, address, size);
    SaveRounds(WithHeader(m.mem, h, 6), address, size, memory == NORMAL, m.world, Turn(TakeAll(m, h)),
               SaveConfig(m.mem, memory));
  }

  /** The bytes of a save that an idle server answers, cell by cell. */
  lemma SavedBytes(m: Machine, memory: byte, bank: byte, address: word, size: nat)
    requires m.phase.Idle? && 1 <= size <= SIZE
    ensures var h := SaveBytes(memory, bank, address, size);
            forall k :: 0 <= k < size ==>
              Offers(Turn(TakeAll(m, h)), size)[k]
              == Shown(WithHeader(m.mem, h, 6), m.world, SaveConfig(m.mem, memory), ToWord(address + k))
  {
    SaveExact(m, memory, bank, address, size);
    RoundsExact(size);
  }

  // ---- load, then save ------------------------------------------------------------------------

  /** The memory configurations of a load and of the save that reads it back, and their bank. */
  datatype Via = Via(load: byte, save: byte, bank: byte)

  function LoadedBy(m: Machine, via: Via, address: word, data: seq<byte>): Machine {
    TakeAll(m, LoadBytes(via.load, via.bank, address, data))
  }

  /** The answer of an idle server to xlink_save. */
  function Saved(m: Machine, via: Via, address: word, size: nat): (bytes: seq<byte>)
    ensures |bytes| == size
  {
    Offers(Turn(TakeAll(m, SaveBytes(via.save, via.bank, address, size))), size)
  }

  /** Between two commands only the KERNAL's interrupt runs, which leaves the banking alone. */
  ghost predicate Between(a: Machine, later: Memory) {
    && (forall c: word :: c !in a.world.kernal ==> later[c] == a.mem[c])
    && later[PORT] % 8 == a.mem[PORT] % 8
  }

  /** A save at any time after a load returns what was loaded. */
  ghost predicate RoundTrips(m: Machine, via: Via, address: word, data: seq<byte>) {
    var loaded := LoadedBy(m, via, address, data);
    && loaded.phase.Idle?
    && forall later: Memory :: Between(loaded, later) ==> Saved(loaded.(mem := later), via, address, |data|) == data
  }

  /**
    The hypotheses: the range holds nothing that the server or the KERNAL's interrupt relies on
    or writes, and no store of the load goes to I/O.
   */
  predicate Undisturbed(m: Machine, via: Via, address: word, size: nat) {
    && Spares(Vital(m.world), address, size)
    && Spares(m.world.kernal, address, size)
    && StoresReach(WayOf(m, via.load, address), address, size)
  }

  /** The configuration that the save reads with. */
  function ReadConfig(m: Machine, via: Via): byte {
    if via.save != NORMAL then via.save else if LoadsFast(via.load) then m.mem[PORT] else NORMAL
  }

  /** The save sees RAM. */
  predicate Visible(m: Machine, via: Via, address: word, size: nat) {
    forall c: word :: Addressed(c, address, size) ==> ViewOf(ReadConfig(m, via), c).Ram?
  }

  /** What a caller can check before the transfer. */
  predicate Intact(m: Machine, via: Via, address: word, size: nat) {
    && Visible(m, via, address, size)
    && Spares(WORKSPACE, address, size)
    && (IsBasic(m, address) ==> Spares(BASIC_END, address, size))
  }

  lemma WorkspaceIsClear(m: Machine, via: Via, address: word, size: nat)
    requires Undisturbed(m, via, address, size) && Spares(WORKSPACE, address, size)
    ensures Clear(WayOf(m, via.load, address), address, size)
  {
    assert forall c :: c in POINTERS ==> c in WORKSPACE;
  }

  /** The port and an addressed cell at the time of the save. */
  lemma LaterCell(m: Machine, via: Via, address: word, data: seq<byte>, later: Memory, k: nat)
    requires m.phase.Idle? && k < |data| <= SIZE
    requires Undisturbed(m, via, address, |data|) && Clear(WayOf(m, via.load, address), address, |data|)
    requires Between(LoadedBy(m, via, address, data), later) && ToWord(address + k) !in WORKSPACE
    ensures later[ToWord(address + k)] == Loaded(m, via.load, address, data, ToWord(address + k))
    ensures SaveConfig(later, via.save) % 8 == ReadConfig(m, via) % 8
  {
    LoadExact(m, via.load, via.bank, address, data);
    CellOf(ToWord(address + k), address, k);
    AfterLoad(m, via, LoadedBy(m, via, address, data), address, data, later, ToWord(address + k));
  }

  lemma AfterLoad(m: Machine, via: Via, loaded: Machine, address: word, data: seq<byte>, later: Memory, c: word)
    requires |data| <= SIZE && Undisturbed(m, via, address, |data|)
    requires loaded.world == m.world && IsLoaded(m, via.load, loaded.mem, address, data)
    requires Between(loaded, later) && Addressed(c, address, |data|) && c !in WORKSPACE
    ensures later[c] == Loaded(m, via.load, address, data, c)
    ensures SaveConfig(later, via.save) % 8 == ReadConfig(m, via) % 8
  {
    assert PORT in Vital(m.world);
  }

  /** A save shows of a cell outside the workspace what the CPU sees there. */
  lemma SaveShows(m: Machine, via: Via, address: word, size: nat, k: nat)
    requires m.phase.Idle? && k < size <= SIZE && ToWord(address + k) !in WORKSPACE
    ensures Saved(m, via, address, size)[k] == Seen(m.mem, m.world, SaveConfig(m.mem, via.save), ToWord(address + k))
  {
    SavedBytes(m, via.save, via.bank, address, size);
    HeaderCells(m.mem, SaveBytes(via.save, via.bank, address, size));
  }

  /** What a save returns from a cell outside the workspace, where the load reached it. */
  function Returned(m: Machine, via: Via, address: word, data: seq<byte>, c: word): byte
    requires |data| <= SIZE
  {
    match ViewOf(ReadConfig(m, via), c)
    case Ram => Loaded(m, via.load, address, data, c)
    case Rom => m.world.rom[c]
    case Io => m.world.io[c]
  }

  lemma SavedIsLoaded(m: Machine, via: Via, address: word, data: seq<byte>, later: Memory, k: nat)
    requires m.phase.Idle? && k < |data| <= SIZE
    requires Undisturbed(m, via, address, |data|) && Clear(WayOf(m, via.load, address), address, |data|)
    requires Between(LoadedBy(m, via, address, data), later) && ToWord(address + k) !in WORKSPACE
    ensures var loaded := LoadedBy(m, via, address, data);
            && loaded.phase.Idle?
            && Saved(loaded.(mem := later), via, address, |data|)[k]
               == Returned(m, via, address, data, ToWord(address + k))
  {
    LoadExact(m, via.load, via.bank, address, data);
    LaterCell(m, via, address, data, later, k);
    SaveShows(LoadedBy(m, via, address, data).(mem := later), via, address, |data|, k);
    ViewSame(SaveConfig(later, via.save), ReadConfig(m, via), ToWord(address + k));
  }

  /** A save right after the load. */
  lemma SavedNow(m: Machine, via: Via, address: word, data: seq<byte>, k: nat)
    requires m.phase.Idle? && k < |data| <= SIZE
    requires Undisturbed(m, via, address, |data|) && Clear(WayOf(m, via.load, address), address, |data|)
    requires ToWord(address + k) !in WORKSPACE
    ensures Saved(LoadedBy(m, via, address, data), via, address, |data|)[k]
         == Returned(m, via, address, data, ToWord(address + k))
  {
    var loaded := LoadedBy(m, via, address, data);
    NothingBetween(loaded);
    SavedIsLoaded(m, via, address, data, loaded.mem, k);
  }

  lemma NothingBetween(loaded: Machine)
    ensures Between(loaded, loaded.mem) && loaded.(mem := loaded.mem) == loaded
  {
  }

  lemma IntactRoundTrips(m: Machine, via: Via, address: word, data: seq<byte>)
    requires m.phase.Idle? && 1 <= |data| <= SIZE
    requires Undisturbed(m, via, address, |data|) && Intact(m, via, address, |data|)
    ensures RoundTrips(m, via, address, data)
  {
    var loaded := LoadedBy(m, via, address, data);
    WorkspaceIsClear(m, via, address, |data|);
    LoadExact(m, via.load, via.bank, address, data);
    forall later: Memory | Between(loaded, later)
      ensures Saved(loaded.(mem := later), via, address, |data|) == data
    {
      IntactSaved(m, via, address, data, later, Saved(loaded.(mem := later), via, address, |data|));
    }
  }

  lemma IntactSaved(m: Machine, via: Via, address: word, data: seq<byte>, later: Memory, saved: seq<byte>)
    requires m.phase.Idle? && 1 <= |data| <= SIZE
    requires Undisturbed(m, via, address, |data|) && Intact(m, via, address, |data|)
    requires Clear(WayOf(m, via.load, address), address, |data|)
    requires var loaded := LoadedBy(m, via, address, data);
             Between(loaded, later) && saved == Saved(loaded.(mem := later), via, address, |data|)
    ensures saved == data
  {
    forall k | 0 <= k < |data| ensures saved[k] == data[k] {
      IntactCell(m, via, address, data, k);
      SavedIsLoaded(m, via, address, data, later, k);
    }
  }

  lemma IntactCell(m: Machine, via: Via, address: word, data: seq<byte>, k: nat)
    requires k < |data| <= SIZE && Intact(m, via, address, |data|)
    ensures ToWord(address + k) !in WORKSPACE && ViewOf(ReadConfig(m, via), ToWord(address + k)).Ram?
    ensures Loaded(m, via.load, address, data, ToWord(address + k)) == data[k]
  {
    var c := ToWord(address + k);
    CellOf(c, address, k);
    assert Addressed(c, address, |data|);
    assert BEND in BASIC_END && BEND + 1 in BASIC_END;
  }

  /** A round trip at the time of the load. */
  lemma RoundTripNow(m: Machine, via: Via, address: word, data: seq<byte>)
    requires RoundTrips(m, via, address, data)
    ensures LoadedBy(m, via, address, data).phase.Idle?
    ensures Saved(LoadedBy(m, via, address, data), via, address, |data|) == data
  {
    NothingBetween(LoadedBy(m, via, address, data));
  }

  /** What a save returns from a workspace cell does not depend on what was loaded. */
  function WorkspaceShows(h: seq<byte>, c: word): byte
    requires |h| == 8 && c in WORKSPACE
  {
    if c == START then START else if c == START + 1 then 0
    else if c == END then h[6] else if c == END + 1 then h[7]
    else if c == MEM then h[2] else h[3]
  }

  lemma WorkspaceSaved(m: Machine, via: Via, address: word, size: nat, k: nat)
    requires m.phase.Idle? && k < size <= SIZE && ToWord(address + k) in WORKSPACE
    ensures Saved(m, via, address, size)[k]
         == WorkspaceShows(SaveBytes(via.save, via.bank, address, size), ToWord(address + k))
  {
    var h := SaveBytes(via.save, via.bank, address, size);
    SavedBytes(m, via.save, via.bank, address, size);
    WorkspaceCell(m.mem, m.world, h, SaveConfig(m.mem, via.save), ToWord(address + k));
  }

  lemma WorkspaceCell(mem: Memory, world: World, h: seq<byte>, config: byte, c: word)
    requires |h| == 8 && c in WORKSPACE
    ensures Shown(WithHeader(mem, h, 6), world, config, c) == WorkspaceShows(h, c)
  {
    HeaderCells(mem, h);
  }

  lemma WorkspaceFixed(m: Machine, via: Via, address: word, data: seq<byte>, k: nat)
    requires k < |data| <= SIZE && ToWord(address + k) in WORKSPACE
    requires RoundTrips(m, via, address, data)
    ensures data[k] == WorkspaceShows(SaveBytes(via.save, via.bank, address, |data|), ToWord(address + k))
  {
    RoundTripNow(m, via, address, data);
    WorkspaceSaved(LoadedBy(m, via, address, data), via, address, |data|, k);
  }

  /** Behind a BASIC program the end pointer holds its end, whatever was loaded. */
  function EndByte(address: word, size: nat, c: word): byte {
    if c == BEND then Lo(ToWord(address + size)) else Hi(ToWord(address + size))
  }

  /** What a save returns, whatever was loaded, from a cell that is not intact. */
  function Fixed(m: Machine, via: Via, address: word, size: nat, c: word): byte {
    match ViewOf(ReadConfig(m, via), c)
    case Ram => EndByte(address, size, c)
    case Rom => m.world.rom[c]
    case Io => m.world.io[c]
  }

  /** A cell that the save does not see as RAM, or that the end of a BASIC load overwrites. */
  predicate Outside(m: Machine, via: Via, address: word, c: word) {
    ViewOf(ReadConfig(m, via), c).Ram? ==> IsBasic(m, address) && c in BASIC_END
  }

  lemma OutsideFixed(m: Machine, via: Via, address: word, data: seq<byte>, k: nat)
    requires m.phase.Idle? && k < |data| <= SIZE
    requires Undisturbed(m, via, address, |data|) && Spares(WORKSPACE, address, |data|)
    requires Outside(m, via, address, ToWord(address + k)) && RoundTrips(m, via, address, data)
    ensures data[k] == Fixed(m, via, address, |data|, ToWord(address + k))
  {
    OutsideCell(m, via, address, data, k);
    WorkspaceIsClear(m, via, address, |data|);
    RoundTripNow(m, via, address, data);
    SavedNow(m, via, address, data, k);
  }

  lemma OutsideCell(m: Machine, via: Via, address: word, data: seq<byte>, k: nat)
    requires k < |data| <= SIZE && Spares(WORKSPACE, address, |data|)
    requires Outside(m, via, address, ToWord(address + k))
    ensures var c := ToWord(address + k);
            c !in WORKSPACE && Returned(m, via, address, data, c) == Fixed(m, via, address, |data|, c)
  {
    CellOf(ToWord(address + k), address, k);
    assert Addressed(ToWord(address + k), address, |data|);
  }

  /** Content that a cell of the range, which always comes back as `shown`, does not keep. */
  function Other(size: nat, shown: byte): (data: seq<byte>)
    ensures |data| == size && forall k :: 0 <= k < size ==> data[k] != shown
  {
    seq(size, _ => if shown == 0 then 1 else 0)
  }

  lemma WorkspaceLost(m: Machine, via: Via, address: word, size: nat) returns (data: seq<byte>)
    requires 1 <= size <= SIZE && !Spares(WORKSPACE, address, size)
    ensures |data| == size && !RoundTrips(m, via, address, data)
  {
    var k := FirstMet(WORKSPACE, address, size);
    data := Other(size, WorkspaceShows(SaveBytes(via.save, via.bank, address, size), ToWord(address + k)));
    if RoundTrips(m, via, address, data) {
      WorkspaceFixed(m, via, address, data, k);
    }
  }

  lemma OutsideLost(m: Machine, via: Via, address: word, size: nat, k: nat) returns (data: seq<byte>)
    requires m.phase.Idle? && k < size <= SIZE
    requires Undisturbed(m, via, address, size) && Spares(WORKSPACE, address, size)
    requires Outside(m, via, address, ToWord(address + k))
    ensures |data| == size && !RoundTrips(m, via, address, data)
  {
    data := Other(size, Fixed(m, via, address, size, ToWord(address + k)));
    if RoundTrips(m, via, address, data) {
      OutsideFixed(m, via, address, data, k);
    }
  }

  lemma HiddenLost(m: Machine, via: Via, address: word, size: nat) returns (data: seq<byte>)
    requires m.phase.Idle? && 1 <= size <= SIZE
    requires Undisturbed(m, via, address, size) && Spares(WORKSPACE, address, size)
    requires !Visible(m, via, address, size)
    ensures |data| == size && !RoundTrips(m, via, address, data)
  {
    var c: word :| Addressed(c, address, size) && !ViewOf(ReadConfig(m, via), c).Ram?;
    CellOf(c, address, ToWord(c - address));
    data := OutsideLost(m, via, address, size, ToWord(c - address));
  }

  lemma BasicEndLost(m: Machine, via: Via, address: word, size: nat) returns (data: seq<byte>)
    requires m.phase.Idle? && 1 <= size <= SIZE
    requires Undisturbed(m, via, address, size) && Spares(WORKSPACE, address, size)
    requires IsBasic(m, address) && !Spares(BASIC_END, address, size)
    ensures |data| == size && !RoundTrips(m, via, address, data)
  {
    var k := FirstMet(BASIC_END, address, size);
    data := OutsideLost(m, via, address, size, k);
  }

  /** Where the range is not intact some content does not come back. */
  lemma SomeContentLost(m: Machine, via: Via, address: word, size: nat) returns (data: seq<byte>)
    requires m.phase.Idle? && 1 <= size <= SIZE
    requires Undisturbed(m, via, address, size) && !Intact(m, via, address, size)
    ensures |data| == size && !RoundTrips(m, via, address, data)
  {
    if !Spares(WORKSPACE, address, size) {
      data := WorkspaceLost(m, via, address, size);
    } else if !Visible(m, via, address, size) {
      data := HiddenLost(m, via, address, size);
    } else {
      data := BasicEndLost(m, via, address, size);
    }
  }

  /**
    Every load of `size` bytes to an undisturbed range can be saved back, at any later time, if
    and only if the save sees RAM there and the range stays clear of the server's own six cells
    and, for a BASIC program, of the BASIC end pointer.
   */
  lemma RoundTripExact(m: Machine, via: Via, address: word, size: nat)
    requires m.phase.Idle? && 1 <= size <= SIZE && Undisturbed(m, via, address, size)
    ensures Intact(m, via, address, size) <==>
            forall data: seq<byte> :: |data| == size ==> RoundTrips(m, via, address, data)
  {
    if Intact(m, via, address, size) {
      forall data: seq<byte> | |data| == size ensures RoundTrips(m, via, address, data) {
        IntactRoundTrips(m, via, address, data);
      }
    } else {
      var data := SomeContentLost(m, via, address, size);
    }
  }

  /**
    A load that leaves the server idle and the range as sent.  The rest is as it was, but for the
    workspace, the port after the slow path, and the BASIC end pointer, which holds the end of a
    program that begins where BASIC programs do.
   */
  ghost predicate LoadsExactly(m: Machine, via: Via, address: word, data: seq<byte>) {
    var after := LoadedBy(m, via, address, data);
    && after.phase.Idle?
    && (IsBasic(m, address) ==> Pointer(after.mem, BEND) == ToWord(address + |data|))
    && HoldsExactly(m, via, after.mem, address, data)
  }

  ghost predicate HoldsExactly(m: Machine, via: Via, after: Memory, address: word, data: seq<byte>) {
    && after[PORT] == (if LoadsFast(via.load) then m.mem[PORT] else NORMAL)
    && forall c: word ::
         && (Addressed(c, address, |data|) ==> after[c] == data[ToWord(c - address)])
         && (!Addressed(c, address, |data|) && c !in WORKSPACE + {PORT} && !(IsBasic(m, address) && c in BASIC_END) ==>
               after[c] == m.mem[c])
  }

  lemma IntactLoadsExactly(m: Machine, via: Via, address: word, data: seq<byte>)
    requires m.phase.Idle? && 1 <= |data| <= SIZE
    requires Undisturbed(m, via, address, |data|) && Intact(m, via, address, |data|)
    ensures LoadsExactly(m, via, address, data)
  {
    WorkspaceIsClear(m, via, address, |data|);
    LoadExact(m, via.load, via.bank, address, data);
    IntactMemory(m, via, LoadedBy(m, via, address, data).mem, address, data);
  }

  lemma IntactMemory(m: Machine, via: Via, after: Memory, address: word, data: seq<byte>)
    requires |data| <= SIZE && Undisturbed(m, via, address, |data|) && Intact(m, via, address, |data|)
    requires IsLoaded(m, via.load, after, address, data)
    ensures IsBasic(m, address) ==> Pointer(after, BEND) == ToWord(address + |data|)
    ensures HoldsExactly(m, via, after, address, data)
  {
    SplitWord(ToWord(address + |data|));
    forall c: word
      ensures Addressed(c, address, |data|) ==> after[c] == data[ToWord(c - address)]
      ensures !Addressed(c, address, |data|) && c !in WORKSPACE ==> after[c] == Loaded(m, via.load, address, data, c)
    {
      IntactAt(m, via, after, address, data, c);
    }
    assert PORT in Vital(m.world);
  }

  lemma IntactAt(m: Machine, via: Via, after: Memory, address: word, data: seq<byte>, c: word)
    requires |data| <= SIZE && Intact(m, via, address, |data|) && IsLoaded(m, via.load, after, address, data)
    ensures Addressed(c, address, |data|) ==> after[c] == data[ToWord(c - address)]
    ensures !Addressed(c, address, |data|) && c !in WORKSPACE ==> after[c] == Loaded(m, via.load, address, data, c)
  {
    if Addressed(c, address, |data|) {
      CellOf(c, address, ToWord(c - address));
      IntactCell(m, via, address, data, ToWord(c - address));
    }
  }

  /** Everything a load followed by a save is for, and exactly where it holds. */
  lemma TransfersExact(m: Machine, via: Via, address: word, size: nat)
    requires m.phase.Idle? && 1 <= size <= SIZE && Undisturbed(m, via, address, size)
    ensures Intact(m, via, address, size) <==>
            forall data: seq<byte> :: |data| == size ==>
              LoadsExactly(m, via, address, data) && RoundTrips(m, via, address, data)
  {
    RoundTripExact(m, via, address, size);
    if Intact(m, via, address, size) {
      forall data: seq<byte> | |data| == size ensures LoadsExactly(m, via, address, data) {
        IntactLoadsExactly(m, via, address, data);
      }
    }
  }

  // ---- inputs that fail, and inputs that do not ----------------------------------------------------

  /** One byte at the server's own start pointer is not always saved back as it was loaded. */
  lemma OwnPointerIsLost(m: Machine, via: Via)
    requires m.phase.Idle?
    ensures exists data: seq<byte> :: |data| == 1 && !RoundTrips(m, via, START, data)
  {
    assert START in WORKSPACE && Addressed(START, START, 1);
    var data := WorkspaceLost(m, via, START, 1);
  }

  /** Three bytes from $2c on, where BASIC programs begin there too: a save returns the end pointer. */
  lemma BasicEndIsLost(m: Machine, via: Via, address: word, data: seq<byte>)
    requires m.phase.Idle? && IsBasic(m, address) && address == BEND - 1
    requires |data| == 3 && Undisturbed(m, via, address, |data|)
    ensures Saved(LoadedBy(m, via, address, data), via, address, |data|) == [data[0], 0x2f, 0]
  {
    var offered := Saved(LoadedBy(m, via, address, data), via, address, |data|);
    ThreeAreClear(m, via, address);
    forall k | 0 <= k < 3 ensures offered[k] == [data[0], 0x2f, 0][k] {
      ThreeCells(m, via, address, data, k);
      SavedNow(m, via, address, data, k);
    }
  }

  lemma ThreeAreClear(m: Machine, via: Via, address: word)
    requires Undisturbed(m, via, address, 3) && address == BEND - 1
    ensures Clear(WayOf(m, via.load, address), address, 3)
  {
    forall c: word | Addressed(c, address, 3) ensures c in {0x2c, 0x2d, 0x2e} {
    }
    WorkspaceIsClear(m, via, address, 3);
  }

  lemma ThreeCells(m: Machine, via: Via, address: word, data: seq<byte>, k: nat)
    requires IsBasic(m, address) && address == BEND - 1 && k < |data| == 3
    ensures ToWord(address + k) !in WORKSPACE
    ensures Returned(m, via, address, data, ToWord(address + k)) == [data[0], 0x2f, 0][k]
  {
  }

  /**
    With the client's default configuration $37 both ways and in the port, what is loaded to
    $a000 goes to the RAM below BASIC, and a save returns the ROM.
   */
  lemma BelowBasicIsLost(m: Machine, via: Via, data: seq<byte>)
    requires m.phase.Idle? && m.mem[PORT] == NORMAL && via.load == via.save == NORMAL
    requires 1 <= |data| <= 0x2000 && Undisturbed(m, via, 0xa000, |data|)
    ensures forall k :: 0 <= k < |data| ==> LoadedBy(m, via, 0xa000, data).mem[0xa000 + k] == data[k]
    ensures Saved(LoadedBy(m, via, 0xa000, data), via, 0xa000, |data|) == m.world.rom[0xa000..0xa000 + |data|]
  {
    BasicIsClear(m, via, |data|);
    forall k | 0 <= k < |data|
      ensures LoadedBy(m, via, 0xa000, data).mem[0xa000 + k] == data[k]
      ensures Saved(LoadedBy(m, via, 0xa000, data), via, 0xa000, |data|)[k] == m.world.rom[0xa000 + k]
    {
      BelowBasicByte(m, via, data, k);
    }
  }

  lemma BelowBasicByte(m: Machine, via: Via, data: seq<byte>, k: nat)
    requires m.phase.Idle? && m.mem[PORT] == NORMAL && via.load == via.save == NORMAL
    requires k < |data| <= 0x2000
    requires Undisturbed(m, via, 0xa000, |data|) && Clear(WayOf(m, via.load, 0xa000), 0xa000, |data|)
    ensures LoadedBy(m, via, 0xa000, data).mem[0xa000 + k] == data[k]
    ensures Saved(LoadedBy(m, via, 0xa000, data), via, 0xa000, |data|)[k] == m.world.rom[0xa000 + k]
  {
    BasicCells(m, via, data, k);
    NothingBetween(LoadedBy(m, via, 0xa000, data));
    LaterCell(m, via, 0xa000, data, LoadedBy(m, via, 0xa000, data).mem, k);
    SavedNow(m, via, 0xa000, data, k);
  }

  lemma BasicIsClear(m: Machine, via: Via, size: nat)
    requires size <= 0x2000 && Undisturbed(m, via, 0xa000, size)
    ensures Clear(WayOf(m, via.load, 0xa000), 0xa000, size)
  {
    forall c: word | Addressed(c, 0xa000, size) ensures 0xa000 <= c < 0xc000 {
    }
    WorkspaceIsClear(m, via, 0xa000, size);
  }

  lemma BasicCells(m: Machine, via: Via, data: seq<byte>, k: nat)
    requires m.mem[PORT] == NORMAL && via.load == via.save == NORMAL && k < |data| <= 0x2000
    ensures ToWord(0xa000 + k) == 0xa000 + k
    ensures Loaded(m, via.load, 0xa000, data, 0xa000 + k) == data[k]
    ensures Returned(m, via, 0xa000, data, 0xa000 + k) == m.world.rom[0xa000 + k]
  {
    CellOf(0xa000 + k, 0xa000, k);
  }

  /**
    Above the first four pages a range comes back, for BASIC programs too, if it spares what runs
    there and lies below $a000 or in $c000-$cfff, or if both transfers ask for a configuration
    that shows RAM: the load any but $37, the save one with the two low bits clear.
   */
  lemma AboveLowPages(m: Machine, via: Via, address: word, data: seq<byte>)
    requires m.phase.Idle? && 1 <= |data| && 0x0400 <= address && address + |data| <= SIZE
    requires Spares(m.world.code, address, |data|) && Spares(m.world.kernal, address, |data|)
    requires address + |data| <= 0xa000 || (0xc000 <= address && address + |data| <= 0xd000)
          || (!LoadsFast(via.load) && via.save % 4 == 0)
    ensures LoadsExactly(m, via, address, data) && RoundTrips(m, via, address, data)
  {
    LowCellsSpared(m, via, address, |data|);
    IntactLoadsExactly(m, via, address, data);
    IntactRoundTrips(m, via, address, data);
  }

  lemma LowCellsSpared(m: Machine, via: Via, address: word, size: nat)
    requires 0x0400 <= address && address + size <= SIZE
    requires Spares(m.world.code, address, size) && Spares(m.world.kernal, address, size)
    requires address + size <= 0xa000 || (0xc000 <= address && address + size <= 0xd000)
          || (!LoadsFast(via.load) && via.save % 4 == 0)
    ensures Undisturbed(m, via, address, size) && Intact(m, via, address, size)
  {
    SparesLowCells(m, address, size);
    forall c: word | Addressed(c, address, size)
      ensures Stored(m.mem[PORT], LoadsFast(via.load), c) && ViewOf(ReadConfig(m, via), c).Ram?
    {
      RamBothWays(m, via, address, size, c);
    }
  }

  lemma RamBothWays(m: Machine, via: Via, address: word, size: nat, c: word)
    requires 0x0400 <= address && address + size <= SIZE && Addressed(c, address, size)
    requires address + size <= 0xa000 || (0xc000 <= address && address + size <= 0xd000)
          || (!LoadsFast(via.load) && via.save % 4 == 0)
    ensures Stored(m.mem[PORT], LoadsFast(via.load), c) && ViewOf(ReadConfig(m, via), c).Ram?
  {
    assert address <= c < address + size;
  }

  lemma SparesLowCells(m: Machine, address: word, size: nat)
    requires 0x0400 <= address && address + size <= SIZE && Spares(m.world.code, address, size)
    ensures Spares(Vital(m.world), address, size)
    ensures Spares(WORKSPACE, address, size) && Spares(BASIC_END, address, size)
  {
    forall c: word | c < 0x0400 ensures !Addressed(c, address, size) {
    }
    assert forall c: word :: c in SYSTEM || c in WORKSPACE || c in BASIC_END ==> c < 0x0400;
  }

  // ---- in plain numbers ----------------------------------------------------------------------------

  /** The bytes on the line: ping, command, configuration, bank, first address and the one behind the last. */
  function OnTheLine(command: byte, memory: byte, bank: byte, address: word, end: nat): (bytes: seq<byte>) {
    [0xfd, command, memory, bank, address % 0x100, address / 0x100, end % 0x100, end / 0x100 % 0x100]
  }

  lemma CommandIs(command: byte, memory: byte, bank: byte, address: word, size: nat)
    ensures Command(command, memory, bank, address, size) == OnTheLine(command, memory, bank, address, address + size)
  {
    HalvesOfWord(address + size);
    SplitWord(address);
  }

  /** The two cells of the workspace that hold what the header brought. */
  lemma HeaderStays(m: Machine, memory: byte, bank: byte, address: word, data: seq<byte>)
    requires m.phase.Idle? && 1 <= |data| <= SIZE && Clear(WayOf(m, memory, address), address, |data|)
    requires !Addressed(MEM, address, |data|) && !Addressed(BANK, address, |data|)
    ensures var after := TakeAll(m, LoadBytes(memory, bank, address, data)).mem;
            after[MEM] == memory && after[BANK] == bank
  {
    var h := Command(CMD_LOAD, memory, bank, address, |data|);
    var w := WithHeader(m.mem, h, 6);
    LoadState(m, memory, bank, address, |data|, data);
    HeaderCells(m.mem, h);
    StoreCells(w, address, data);
    LoadEndCells(Store(w, address, data), address + |data|, IsBasic(m, address), LoadsFast(memory));
  }

  /**
    A load above the first four pages, cell by cell and in numbers: a request for $37 or $b7 leaves
    the port as it is, any other leaves $37 in it.  Only a request for $37 or $b7 has to keep away
    from I/O, where the port shows it.
   */
  lemma LoadInNumbers(m: Machine, memory: byte, bank: byte, address: word, data: seq<byte>, c: word)
    requires m.phase.Idle? && data != [] && 0x0400 <= address && address + |data| <= 0x1_0000
    requires Spares(m.world.code, address, |data|)
    requires memory in {0x37, 0xb7} && m.mem[1] % 8 in {5, 6, 7} ==> address + |data| <= 0xd000 || 0xe000 <= address
    ensures var end := address + |data|;
            var low: int, high: int := m.mem[0x2b], m.mem[0x2c];
            var basic := low + 0x100 * high == address;
            var after := TakeAll(m, OnTheLine(0x01, memory, bank, address, end) + data);
            && after.phase.Idle?
            && after.mem[c] ==
               if address <= c < end then data[c - address]
               else if c in {0xc1, 0xc3} then end % 0x100
               else if c in {0xc2, 0xc4} then end / 0x100 % 0x100
               else if c == 0xfe then memory
               else if c == 0xff then bank
               else if c == 0x2d && basic then end % 0x100
               else if c == 0x2e && basic then end / 0x100 % 0x100
               else if c == 0x01 && memory !in {0x37, 0xb7} then 0x37
               else m.mem[c]
  {
    var lo, hi := (address + |data|) % 0x100, (address + |data|) / 0x100 % 0x100;
    CommandIs(0x01, memory, bank, address, |data|);
    HalvesOfWord(address + |data|);
    LoadedAs(m, memory, bank, address, data, c, lo, hi);
  }

  lemma LoadedAs(m: Machine, memory: byte, bank: byte, address: word, data: seq<byte>, c: word, lo: byte, hi: byte)
    requires m.phase.Idle? && data != [] && 0x0400 <= address && address + |data| <= 0x1_0000
    requires Spares(m.world.code, address, |data|)
    requires memory in {0x37, 0xb7} && m.mem[1] % 8 in {5, 6, 7} ==> address + |data| <= 0xd000 || 0xe000 <= address
    requires lo == Lo(ToWord(address + |data|)) && hi == Hi(ToWord(address + |data|))
    ensures var after := TakeAll(m, LoadBytes(memory, bank, address, data));
            && after.phase.Idle?
            && after.mem[c] == if c == 0xfe then memory else if c == 0xff then bank
                               else InNumbers(m, memory, address, data, lo, hi, c)
  {
    NumbersAreClear(m, memory, address, |data|);
    LoadExact(m, memory, bank, address, data);
    HeaderStays(m, memory, bank, address, data);
    if c !in {0xfe, 0xff} {
      LoadedInNumbers(m, memory, TakeAll(m, LoadBytes(memory, bank, address, data)).mem, address, data, lo, hi, c);
    }
  }

  function InNumbers(m: Machine, memory: byte, address: word, data: seq<byte>, lo: byte, hi: byte, c: word): byte {
    if address <= c < address + |data| then data[c - address]
    else if c in {0xc1, 0xc3} then lo
    else if c in {0xc2, 0xc4} then hi
    else if c == 0x2d && IsBasic(m, address) then lo
    else if c == 0x2e && IsBasic(m, address) then hi
    else if c == 0x01 && memory !in {0x37, 0xb7} then 0x37
    else m.mem[c]
  }

  lemma NumbersAreClear(m: Machine, memory: byte, address: word, size: nat)
    requires 0x0400 <= address && address + size <= 0x1_0000 && Spares(m.world.code, address, size)
    requires memory in {0x37, 0xb7} && m.mem[1] % 8 in {5, 6, 7} ==> address + size <= 0xd000 || 0xe000 <= address
    ensures Clear(WayOf(m, memory, address), address, size)
    ensures !Addressed(MEM, address, size) && !Addressed(BANK, address, size)
  {
    SparesLowCells(m, address, size);
    assert MEM in WORKSPACE && BANK in WORKSPACE;
    assert forall c :: c in POINTERS ==> c in WORKSPACE;
    assert LoadsFast(memory) <==> memory in {0x37, 0xb7};
    forall c: word | Addressed(c, address, size) ensures Stored(m.mem[PORT], LoadsFast(memory), c) {
      assert address <= c < address + size;
    }
  }

  lemma LoadedInNumbers(m: Machine, memory: byte, after: Memory, address: word, data: seq<byte>,
                        lo: byte, hi: byte, c: word)
    requires 0x0400 <= address && address + |data| <= 0x1_0000 && IsLoaded(m, memory, after, address, data)
    requires lo == Lo(ToWord(address + |data|)) && hi == Hi(ToWord(address + |data|)) && c !in {0xfe, 0xff}
    ensures after[c] == InNumbers(m, memory, address, data, lo, hi, c)
  {
    InRange(c, address, |data|);
    if c in POINTERS {
      PointersInNumbers(after, ToWord(address + |data|));
    } else {
      OutsideInNumbers(m, memory, address, data, lo, hi, c);
    }
  }

  lemma OutsideInNumbers(m: Machine, memory: byte, address: word, data: seq<byte>, lo: byte, hi: byte, c: word)
    requires 0x0400 <= address && address + |data| <= 0x1_0000 && c !in WORKSPACE
    requires lo == Lo(ToWord(address + |data|)) && hi == Hi(ToWord(address + |data|))
    ensures Loaded(m, memory, address, data, c) == InNumbers(m, memory, address, data, lo, hi, c)
  {
    InRange(c, address, |data|);
    assert LoadsFast(memory) <==> memory in {0x37, 0xb7};
  }

  lemma InRange(c: word, address: word, size: nat)
    requires address + size <= 0x1_0000
    ensures Addressed(c, address, size) <==> address <= c < address + size
    ensures Addressed(c, address, size) ==> ToWord(c - address) == c - address
  {
  }

  lemma PointersInNumbers(after: Memory, end: word)
    requires Pointer(after, START) == Pointer(after, END) == end
    ensures after[0xc1] == after[0xc3] == Lo(end) && after[0xc2] == after[0xc4] == Hi(end)
  {
    SplitWord(end);
    SameWord(after[START], after[START + 1], Lo(end), Hi(end));
    SameWord(after[END], after[END + 1], Lo(end), Hi(end));
  }

  /**
    One byte for a cell that the port shows as I/O: the fast path does not bring it into RAM, and is
    where the model ends; the slow path does.
   */
  lemma IntoIo(m: Machine, memory: byte, bank: byte, address: word, b: byte)
    requires m.phase.Idle? && 0xd000 <= address < 0xe000 && m.mem[1] % 8 in {5, 6, 7}
    requires address !in m.world.code
    ensures var after := TakeAll(m, OnTheLine(0x01, memory, bank, address, address + 1) + [b]);
            if memory in {0x37, 0xb7} then after.phase.Derailed? && after.mem[address] == m.mem[address]
            else after.phase.Idle? && after.mem[address] == b
  {
    if memory in {0x37, 0xb7} {
      FastIntoIo(m, memory, bank, address, b);
    } else {
      LoadInNumbers(m, memory, bank, address, [b], address);
    }
  }

  lemma FastIntoIo(m: Machine, memory: byte, bank: byte, address: word, b: byte)
    requires m.phase.Idle? && 0xd000 <= address < 0xe000 && m.mem[1] % 8 in {5, 6, 7}
    requires memory in {0x37, 0xb7}
    ensures var after := TakeAll(m, OnTheLine(0x01, memory, bank, address, address + 1) + [b]);
            after.phase.Derailed? && after.mem[address] == m.mem[address]
  {
    var h := OnTheLine(0x01, memory, bank, address, address + 1);
    CommandIs(0x01, memory, bank, address, 1);
    OneByteStart(m, memory, bank, address, h);
    IoRefuses(m, h, WithHeader(m.mem, h, 6), address, b, WayOf(m, memory, address));
  }

  lemma OneByteStart(m: Machine, memory: byte, bank: byte, address: word, h: seq<byte>)
    requires m.phase.Idle? && 0x0400 <= address && h == Command(CMD_LOAD, memory, bank, address, 1)
    requires LoadsFast(memory)
    ensures var w := WithHeader(m.mem, h, 6);
            && TakeAll(m, h) == InLoop(w, address, 1, WayOf(m, memory, address)) && WayOf(m, memory, address).fast
            && w[1] == m.mem[1] && w[address] == m.mem[address]
  {
    LoadStart(m, memory, bank, address, 1);
    HeaderCells(m.mem, h);
  }

  lemma IoRefuses(m: Machine, h: seq<byte>, w: Memory, address: word, b: byte, way: Way)
    requires 0xd000 <= address < 0xe000 && w[1] % 8 in {5, 6, 7} && way.fast
    requires TakeAll(m, h) == InLoop(w, address, 1, way)
    ensures var after := TakeAll(m, h + [b]);
            after.phase.Derailed? && after.mem[address] == w[address]
  {
    assert (h + [b])[..|h|] == h;
    IoStops(w, address, b, way);
    TakeLast(m, h + [b], InLoop(w, address, 1, way), Take(InLoop(w, address, 1, way), b));
  }

  lemma IoStops(w: Memory, address: word, b: byte, way: Way)
    requires 0xd000 <= address < 0xe000 && w[1] % 8 in {5, 6, 7} && way.fast
    ensures var after := Take(InLoop(w, address, 1, way), b);
            after.phase.Derailed? && after.mem[address] == w[address]
  {
    PointerReads(w, address);
  }

  /**
    A save in numbers: its own cells show the pointer and the header, and of the others which
    configurations show ROM or I/O, and RAM everywhere else.
   */
  lemma SaveInNumbers(m: Machine, memory: byte, bank: byte, address: word, size: nat, k: nat)
    requires m.phase.Idle? && k < size <= 0x1_0000
    ensures var c := (address + k) % 0x1_0000;
            var low := (if memory == 0x37 then m.mem[1] else memory) % 8;
            Offers(Turn(TakeAll(m, OnTheLine(0x02, memory, bank, address, address + size))), size)[k] ==
              if c == 0xc1 then 0xc1
              else if c == 0xc2 then 0
              else if c == 0xc3 then (address + size) % 0x100
              else if c == 0xc4 then (address + size) / 0x100 % 0x100
              else if c == 0xfe then memory
              else if c == 0xff then bank
              else if c <= 1 then m.world.io[c]
              else if 0xa000 <= c < 0xc000 && low in {3, 7} then m.world.rom[c]
              else if 0xd000 <= c < 0xe000 && low in {5, 6, 7} then m.world.io[c]
              else if 0xd000 <= c < 0xe000 && low in {1, 2, 3} then m.world.rom[c]
              else if 0xe000 <= c && low in {2, 3, 6, 7} then m.world.rom[c]
              else m.mem[c]
  {
    CommandIs(0x02, memory, bank, address, size);
    if ToWord(address + k) in WORKSPACE {
      WorkspaceSaved(m, Via(memory, memory, bank), address, size, k);
    } else {
      SaveShows(m, Via(memory, memory, bank), address, size, k);
      SeenInNumbers(m.mem, m.world, SaveConfig(m.mem, memory), ToWord(address + k));
    }
  }

  lemma SeenInNumbers(mem: Memory, world: World, config: byte, c: word)
    ensures Seen(mem, world, config, c) ==
              if c <= 1 then world.io[c]
              else if 0xa000 <= c < 0xc000 && config % 8 in {3, 7} then world.rom[c]
              else if 0xd000 <= c < 0xe000 && config % 8 in {5, 6, 7} then world.io[c]
              else if 0xd000 <= c < 0xe000 && config % 8 in {1, 2, 3} then world.rom[c]
              else if 0xe000 <= c && config % 8 in {2, 3, 6, 7} then world.rom[c]
              else mem[c]
  {
  }
}
