/**
  LUFA's ring buffer (Drivers/Misc/RingBuffer.h) with one producer and one consumer, each
  guarded by the count as its documentation asks, interleaved at any access.

  Only the count is changed with interrupts disabled; the element stores and the pointer
  steps of the two sides may fall anywhere between each other.
 */
module CountRing {
  import opened Bytes

  datatype At = Idle | Ready | Touched | Stepped | Wrapped

  datatype State = State(
    buf: seq<byte>, inp: nat, out: nat, count: nat,
    producer: At, data: byte, consumer: At,
    // history: bytes stored and bytes loaded
    inserted: seq<byte>, removed: seq<byte>)

  datatype Action = Produce(value: byte) | Consume

  /** RingBuffer_InitBuffer. */
  function Init(storage: seq<byte>): State {
    State(storage, 0, 0, 0, Idle, 0, Idle, [], [])
  }

  /** RingBuffer_Insert behind `!RingBuffer_IsFull`, one access a step. */
  function Insert(s: State, b: byte): State {
    match s.producer
    case Idle => if s.count == |s.buf| then s else s.(producer := Ready, data := b)
    case Ready =>
      if s.inp < |s.buf|
      then s.(buf := s.buf[s.inp := s.data], inserted := s.inserted + [s.data], producer := Touched)
      else s
    case Touched => s.(inp := s.inp + 1, producer := Stepped)
    case Stepped => s.(inp := if s.inp == |s.buf| then 0 else s.inp, producer := Wrapped)
    case Wrapped => s.(count := s.count + 1, producer := Idle)
  }

  /** RingBuffer_Remove behind `!RingBuffer_IsEmpty`, one access a step. */
  function Remove(s: State): State {
    match s.consumer
    case Idle => if s.count == 0 then s else s.(consumer := Ready)
    case Ready =>
      if s.out < |s.buf| then s.(removed := s.removed + [s.buf[s.out]], consumer := Touched) else s
    case Touched => s.(out := s.out + 1, consumer := Stepped)
    case Stepped => s.(out := if s.out == |s.buf| then 0 else s.out, consumer := Wrapped)
    case Wrapped => s.(count := if s.count == 0 then 0xffff else s.count - 1, consumer := Idle)
  }

  function Do(s: State, a: Action): State {
    match a
    case Produce(b) => Insert(s, b)
    case Consume => Remove(s)
  }

  function Exec(s: State, schedule: seq<Action>): State {
    if schedule == [] then s
    else Do(Exec(s, schedule[..|schedule| - 1]), schedule[|schedule| - 1])
  }

  // ---- slots ---------------------------------------------------------------------------------

  /** The slot of the k-th byte. */
  function Slot(k: nat, size: nat): (i: nat)
    requires size > 0
    ensures i < size
  {
    if k == 0 then 0
    else
      var previous := Slot(k - 1, size);
      if previous + 1 == size then 0 else previous + 1
  }

  lemma {:induction false} SlotAhead(k: nat, d: nat, size: nat)
    requires d < size
    ensures Slot(k + d, size) == if Slot(k, size) + d < size then Slot(k, size) + d else Slot(k, size) + d - size
  {
    if d > 0 {
      SlotAhead(k, d - 1, size);
    }
  }

  /** Bytes less than a ring apart lie in different slots. */
  lemma Apart(j: nat, k: nat, size: nat)
    requires j < k < j + size
    ensures Slot(j, size) != Slot(k, size)
  {
    SlotAhead(j, k - j, size);
  }

  // ---- the invariant ---------------------------------------------------------------------------

  /** Insertions that the count knows about. */
  function Stored(s: State): int {
    |s.inserted| - if s.producer in {Touched, Stepped, Wrapped} then 1 else 0
  }

  /** Removals that the count knows about. */
  function Loaded(s: State): int {
    |s.removed| - if s.consumer in {Touched, Stepped, Wrapped} then 1 else 0
  }

  /** Where a pointer is: at the slot of byte `n`, on the way to it, or one past the end. */
  predicate PointsAt(p: nat, at: At, n: nat, size: nat)
    requires size > 0
  {
    match at
    case Idle => p == Slot(n, size)
    case Ready => p == Slot(n, size)
    case Touched => n > 0 && p == Slot(n - 1, size)
    case Stepped => n > 0 && p == Slot(n - 1, size) + 1
    case Wrapped => n > 0 && p == Slot(n, size)
  }

  ghost predicate Inv(s: State) {
    var size := |s.buf|;
    && size > 0
    && 0 <= Loaded(s) <= |s.removed| <= Stored(s) <= |s.inserted| <= Loaded(s) + size
    && s.count == Stored(s) - Loaded(s)
    && (s.producer.Ready? ==> |s.inserted| < Loaded(s) + size)
    && (s.consumer.Ready? ==> |s.removed| < Stored(s))
    && PointsAt(s.inp, s.producer, |s.inserted|, size)
    && PointsAt(s.out, s.consumer, |s.removed|, size)
    && s.removed == s.inserted[..|s.removed|]
    && forall k :: Loaded(s) <= k < |s.inserted| ==> s.buf[Slot(k, size)] == s.inserted[k]
  }

  lemma StoreKeeps(s: State)
    requires Inv(s) && s.producer.Ready?
    ensures Inv(Insert(s, s.data))
  {
    var n := |s.inserted|;
    forall k | Loaded(s) <= k < n ensures Slot(k, |s.buf|) != Slot(n, |s.buf|) {
      Apart(k, n, |s.buf|);
    }
  }

  lemma InsertKeeps(s: State, b: byte)
    requires Inv(s)
    ensures Inv(Insert(s, b))
  {
    if s.producer.Ready? {
      StoreKeeps(s);
    }
  }

  lemma LoadKeeps(s: State)
    requires Inv(s) && s.consumer.Ready?
    ensures Inv(Remove(s))
  {
    assert s.removed + [s.inserted[|s.removed|]] == s.inserted[..|s.removed| + 1];
  }

  lemma ReleaseKeeps(s: State)
    requires Inv(s) && s.consumer.Wrapped?
    ensures Inv(Remove(s))
  {
  }

  lemma RemoveKeeps(s: State)
    requires Inv(s)
    ensures Inv(Remove(s))
  {
    match s.consumer
    case Ready => LoadKeeps(s);
    case Wrapped => ReleaseKeeps(s);
    case _ =>
  }

  lemma {:induction false} ExecKeeps(storage: seq<byte>, schedule: seq<Action>)
    requires storage != []
    ensures Inv(Exec(Init(storage), schedule)) && |Exec(Init(storage), schedule).buf| == |storage|
  {
    if schedule != [] {
      var init := schedule[..|schedule| - 1];
      ExecKeeps(storage, init);
      var s := Exec(Init(storage), init);
      match schedule[|schedule| - 1]
      case Produce(b) => InsertKeeps(s, b);
      case Consume => RemoveKeeps(s);
    }
  }

  /**
    However the two sides interleave, the bytes removed are the first bytes inserted, in
    order; at most a ring of bytes is under way, all of its slots being usable; and a slot
    about to be stored to holds no byte that is still to be removed.
   */
  lemma RefinesFifo(storage: seq<byte>, schedule: seq<Action>)
    requires storage != []
    ensures var s := Exec(Init(storage), schedule);
            && s.removed <= s.inserted && |s.inserted| <= |s.removed| + |storage|
            && s.count <= |storage|
            && (s.producer.Ready? ==> forall k :: |s.removed| <= k < |s.inserted| ==> Slot(k, |storage|) != s.inp)
            && (s.consumer.Ready? ==>
                  |s.removed| < |s.inserted| && s.out < |s.buf| && s.buf[s.out] == s.inserted[|s.removed|])
            && (s.producer.Idle? && s.consumer.Idle? ==> s.count == |s.inserted| - |s.removed|)
  {
    ExecKeeps(storage, schedule);
    var s := Exec(Init(storage), schedule);
    forall k | s.producer.Ready? && |s.removed| <= k < |s.inserted| ensures Slot(k, |storage|) != s.inp {
      Apart(k, |s.inserted|, |storage|);
    }
  }

  lemma {:induction false} ExecConcat(s: State, a: seq<Action>, b: seq<Action>)
    ensures Exec(s, a + b) == Exec(Exec(s, a), b)
  {
    if b == [] {
      assert a + b == a;
    } else {
      assert (a + b)[..|a + b| - 1] == a + b[..|b| - 1];
      ExecConcat(s, a, b[..|b| - 1]);
    }
  }

  function Produces(b: byte, n: nat): (actions: seq<Action>)
    ensures |actions| == n && forall k :: 0 <= k < n ==> actions[k] == Produce(b)
  {
    seq(n, _ => Produce(b))
  }

  function InsertTimes(s: State, b: byte, n: nat): State {
    if n == 0 then s else Insert(InsertTimes(s, b, n - 1), b)
  }

  lemma {:induction false} ExecProduces(s: State, b: byte, n: nat)
    ensures Exec(s, Produces(b, n)) == InsertTimes(s, b, n)
  {
    if n > 0 {
      assert Produces(b, n)[..n - 1] == Produces(b, n - 1);
      ExecProduces(s, b, n - 1);
    }
  }

  /** The five accesses of one insertion into a buffer with room. */
  lemma InsertsOne(s: State, b: byte)
    requires Inv(s) && s.producer.Idle? && s.count < |s.buf|
    ensures var r := InsertTimes(s, b, 5);
            && r.inserted == s.inserted + [b] && r.count == s.count + 1 && r.producer.Idle?
            && r.removed == s.removed && r.consumer == s.consumer
  {
    var touched := InsertTimes(s, b, 2);
    assert InsertTimes(s, b, 1) == Insert(s, b) && touched == Insert(Insert(s, b), b);
    assert InsertTimes(s, b, 4) == Insert(Insert(touched, b), b);
  }

  /** In every reachable state, wherever the consumer is, an insertion into a buffer with room stores its byte. */
  lemma InsertionStores(storage: seq<byte>, schedule: seq<Action>, b: byte)
    requires storage != []
    requires var s := Exec(Init(storage), schedule); s.producer.Idle? && s.count < |storage|
    ensures var s, r := Exec(Init(storage), schedule), Exec(Init(storage), schedule + Produces(b, 5));
            && r.inserted == s.inserted + [b] && r.count == s.count + 1 && r.producer.Idle?
            && r.removed == s.removed && r.consumer == s.consumer
  {
    ExecKeeps(storage, schedule);
    InsertsOne(Exec(Init(storage), schedule), b);
    ExecProduces(Exec(Init(storage), schedule), b, 5);
    ExecConcat(Init(storage), schedule, Produces(b, 5));
  }

  /** Every slot can be in use: a producer alone gets as many bytes in as there are slots. */
  lemma {:induction false} FillsEverySlot(storage: seq<byte>, data: seq<byte>) returns (schedule: seq<Action>)
    requires storage != [] && |data| <= |storage|
    ensures var s := Exec(Init(storage), schedule);
            s.inserted == data && s.count == |data| && s.removed == [] && s.producer.Idle? && s.consumer.Idle?
  {
    if data == [] {
      schedule := [];
    } else {
      var b := data[|data| - 1];
      var init := FillsEverySlot(storage, data[..|data| - 1]);
      ExecKeeps(storage, init);
      InsertionStores(storage, init, b);
      schedule := init + Produces(b, 5);
    }
  }

  // ---- progress ----------------------------------------------------------------------------------

  lemma {:induction false} ExecKeepsFrom(s: State, schedule: seq<Action>)
    requires Inv(s)
    ensures Inv(Exec(s, schedule))
  {
    if schedule != [] {
      ExecKeepsFrom(s, schedule[..|schedule| - 1]);
      var before := Exec(s, schedule[..|schedule| - 1]);
      match schedule[|schedule| - 1]
      case Produce(b) => InsertKeeps(before, b);
      case Consume => RemoveKeeps(before);
    }
  }

  const REMOVAL := [Consume, Consume, Consume, Consume, Consume]

  /** The five accesses of one removal, one after the other. */
  lemma ExecFive(s: State)
    ensures Exec(s, REMOVAL) == Remove(Remove(Remove(Remove(Remove(s)))))
  {
    assert REMOVAL[..4][..3] == REMOVAL[..3] && REMOVAL[..3][..2] == REMOVAL[..2] && REMOVAL[..2][..1] == REMOVAL[..1];
    assert REMOVAL[..1][..0] == [];
    assert Exec(s, REMOVAL[..1]) == Remove(s);
    assert Exec(s, REMOVAL[..2]) == Remove(Remove(s));
    assert Exec(s, REMOVAL[..3]) == Remove(Remove(Remove(s)));
    assert Exec(s, REMOVAL[..4]) == Remove(Remove(Remove(Remove(s))));
  }

  /** The removal of a byte from a buffer that is not empty takes the oldest. */
  lemma RemovesOne(s: State)
    requires Inv(s) && s.consumer.Idle? && s.count > 0
    ensures var r := Exec(s, REMOVAL);
            && |s.removed| < |s.inserted| && r.removed == s.removed + [s.inserted[|s.removed|]]
            && r.count == s.count - 1 && r.inserted == s.inserted
            && r.producer == s.producer && r.consumer.Idle?
  {
    ExecFive(s);
    var two := Remove(Remove(s));
    assert two.removed == s.removed + [s.buf[s.out]] && s.buf[s.out] == s.inserted[|s.removed|];
    var four := Remove(Remove(two));
    assert four.removed == two.removed && four.count == s.count && four.consumer.Wrapped?;
  }

  /** In every reachable state, wherever the producer is, a removal delivers the oldest byte. */
  lemma RemovalDelivers(storage: seq<byte>, schedule: seq<Action>)
    requires storage != []
    requires var s := Exec(Init(storage), schedule); s.consumer.Idle? && s.count > 0
    ensures var s, r := Exec(Init(storage), schedule), Exec(Init(storage), schedule + REMOVAL);
            && |s.removed| < |s.inserted| && r.removed == s.removed + [s.inserted[|s.removed|]]
            && r.count == s.count - 1 && r.inserted == s.inserted
  {
    ExecKeeps(storage, schedule);
    RemovesOne(Exec(Init(storage), schedule));
    ExecConcat(Init(storage), schedule, REMOVAL);
  }

  /** Accesses that are left of an operation. */
  function Left(at: At): nat {
    match at
    case Idle => 0
    case Ready => 4
    case Touched => 3
    case Stepped => 2
    case Wrapped => 1
  }

  /** Both sides can finish what they have begun. */
  lemma {:induction false} Settles(s: State) returns (rest: seq<Action>)
    requires Inv(s)
    ensures var r := Exec(s, rest); Inv(r) && r.producer.Idle? && r.consumer.Idle? && s.inserted <= r.inserted
    decreases Left(s.producer) + Left(s.consumer)
  {
    if s.producer.Idle? && s.consumer.Idle? {
      rest := [];
    } else {
      var a := if s.producer.Idle? then Consume else Produce(s.data);
      InsertKeeps(s, s.data);
      RemoveKeeps(s);
      StepLeft(s);
      var more := Settles(Do(s, a));
      rest := [a] + more;
      ExecOne(s, a);
      ExecConcat(s, [a], more);
    }
  }

  lemma ExecOne(s: State, a: Action)
    ensures Exec(s, [a]) == Do(s, a)
  {
    assert [a][..0] == [];
  }

  lemma StepLeft(s: State)
    requires Inv(s)
    ensures !s.producer.Idle? ==> Left(Insert(s, s.data).producer) < Left(s.producer)
    ensures !s.consumer.Idle? ==> Left(Remove(s).consumer) < Left(s.consumer)
    ensures Insert(s, s.data).consumer == s.consumer && Remove(s).producer == s.producer
    ensures s.inserted <= Insert(s, s.data).inserted && Remove(s).inserted == s.inserted
  {
  }

  /** ... and then the consumer can empty the buffer. */
  lemma {:induction false} Drains(s: State) returns (rest: seq<Action>)
    requires Inv(s) && s.producer.Idle? && s.consumer.Idle?
    ensures var r := Exec(s, rest); r.removed == r.inserted == s.inserted && r.count == 0
    decreases s.count
  {
    if s.count == 0 {
      rest := [];
    } else {
      RemovesOne(s);
      ExecKeepsFrom(s, REMOVAL);
      var more := Drains(Exec(s, REMOVAL));
      rest := REMOVAL + more;
      ExecConcat(s, REMOVAL, more);
    }
  }

  /** From every reachable state the consumer can come to have all that was inserted, in order. */
  lemma EverythingArrives(storage: seq<byte>, schedule: seq<Action>) returns (rest: seq<Action>)
    requires storage != []
    ensures var s, r := Exec(Init(storage), schedule), Exec(Init(storage), schedule + rest);
            s.inserted <= r.inserted && r.removed == r.inserted && r.count == 0
  {
    var s := Exec(Init(storage), schedule);
    ExecKeeps(storage, schedule);
    var first := Settles(s);
    var second := Drains(Exec(s, first));
    rest := first + second;
    ExecConcat(s, first, second);
    ExecConcat(Init(storage), schedule, rest);
  }
}
