/**
  The toggle handshake between driver/shm.c on the PC and the server macros of server.h,
  one atomic port access a step.  driver/parport.c runs the same loops.

  The PC sends `bytes`, then, if `count` is positive, turns the port around and receives
  `count` bytes.  A schedule is any sequence of moves of the two sides, with time-outs
  and reopenings of the driver at any point the source allows; a move that finds its
  poll unsuccessful changes nothing.
 */
module Handshake {
  import opened Bytes
  import opened Server

  datatype PcAt =
    | Send | Strobe | SendWait | Closed
    | TurnInput | TurnStrobe
    | RecvWait | RecvRead | RecvStrobe
    | Done | SendFailed | RecvFailed

  datatype ServerAt = Wait | Read | Ack | Drive | Put | Flip | WaitBack | Release

  datatype Job = Job(server: Machine, bytes: seq<byte>, count: nat)

  datatype State = State(
    // the port: FLAG latch of the server, PA2, data lines and who drives them
    latch: bool, pa2: bool, data: byte, pcOut: bool, serverOut: bool,
    // driver/shm.c
    pc: PcAt, i: nat, last: bool, got: seq<byte>,
    // the server
    at: ServerAt, m: Machine, taken: seq<byte>, gave: seq<byte>,
    // history: strobes made and noticed, PA2 flips made and noticed
    strobes: nat, heard: nat, flips: nat, seen: nat)

  datatype Action = PcMove | PcTimeout | PcClose | ServerMove

  function Start(j: Job, pa2: bool, noise: byte): State {
    State(false, pa2, noise, true, false, Send, 0, pa2, [], Wait, j.server, [], [], 0, 0, 0, 0)
  }

  // ---- driver/shm.c -----------------------------------------------------------------------

  function MakeStrobe(s: State): State {
    s.(latch := true, strobes := s.strobes + 1)
  }

  /** `driver->wait`: notice a flip of PA2, or poll again. */
  function Notice(s: State, next: PcAt): State {
    if s.pa2 != s.last then s.(last := s.pa2, seen := s.seen + 1, pc := next) else s
  }

  function PcDoes(j: Job, s: State): State {
    match s.pc
    case Send =>
      if s.i < |j.bytes| then s.(data := if s.pcOut then j.bytes[s.i] else 0xff, pc := Strobe)
      else s.(pc := if j.count == 0 then Done else TurnInput)
    case Strobe => MakeStrobe(s).(pc := SendWait)
    case SendWait =>
      var noticed := Notice(s, Send);
      if noticed == s then s else noticed.(i := s.i + 1)
    case Closed => s.(last := s.pa2, pcOut := true, pc := Send)
    case TurnInput => s.(pcOut := false, pc := TurnStrobe)
    case TurnStrobe => MakeStrobe(s).(i := 0, pc := RecvWait)
    case RecvWait => Notice(s, RecvRead)
    case RecvRead => s.(got := s.got + [if s.pcOut then 0xff else s.data], pc := RecvStrobe)
    case RecvStrobe => MakeStrobe(s).(i := s.i + 1, pc := if s.i + 1 == j.count then Done else RecvWait)
    case _ => s
  }

  // ---- server.h and server64.asm ---------------------------------------------------------

  function MakeFlip(s: State, next: ServerAt): State {
    s.(pa2 := !s.pa2, flips := s.flips + 1, at := next)
  }

  function ServerDoes(s: State): State {
    match s.at
    case Wait =>
      if s.latch
      then s.(latch := false, heard := s.heard + 1, at := if s.m.phase.Turning? then Drive else Read)
      else s
    case Read => s.(m := Take(s.m, s.data), taken := s.taken + [s.data], at := Ack)
    case Ack => MakeFlip(s, Wait)
    case Drive => s.(serverOut := true, m := Turn(s.m), at := Put)
    case Put => s.(data := Offer(s.m), gave := s.gave + [Offer(s.m)], at := Flip)
    case Flip => MakeFlip(s, WaitBack)
    case WaitBack =>
      if s.latch
      then s.(latch := false, heard := s.heard + 1, m := Given(s.m),
              at := if Given(s.m).phase.Saving? then Put else Release)
      else s
    case Release => s.(serverOut := false, at := Wait)
  }

  function Do(j: Job, s: State, a: Action): State {
    match a
    case PcMove => PcDoes(j, s)
    case ServerMove => ServerDoes(s)
    case PcTimeout =>
      if s.pc.SendWait? then s.(pc := SendFailed)
      else if s.pc.RecvWait? then s.(pc := RecvFailed)
      else s
    case PcClose =>
      if s.pc.Send? && 0 < s.i < |j.bytes| then s.(pcOut := false, pc := Closed) else s
  }

  function Exec(j: Job, s: State, schedule: seq<Action>): State {
    if schedule == [] then s
    else Do(j, Exec(j, s, schedule[..|schedule| - 1]), schedule[|schedule| - 1])
  }

  // ---- what the server must be ready for -----------------------------------------------------

  /** In these phases the server waits for a byte of this model's commands. */
  predicate Reads(phase: Phase) {
    phase.Idle? || phase.Header? || phase.Loading?
  }

  /** The server in its save loop, once everything sent has arrived. */
  function Turned(j: Job): Machine {
    Turn(TakeAll(j.server, j.bytes))
  }

  /** The server reads while the PC sends, and gives exactly `count` bytes when turned around. */
  ghost predicate Answers(j: Job) {
    && (forall k :: 0 <= k < |j.bytes| ==> Reads(TakeAll(j.server, j.bytes[..k]).phase))
    && !TakeAll(j.server, j.bytes).phase.Derailed?
    && (j.count > 0 ==>
          && TakeAll(j.server, j.bytes).phase.Turning?
          && (forall n :: 0 <= n < j.count ==> GiveN(Turned(j), n).phase.Saving?)
          && !GiveN(Turned(j), j.count).phase.Saving?)
  }

  /** The rounds of the server, laid out: what it has taken, what it gives, and in which state. */
  datatype Plan = Plan(job: Job, read: seq<Machine>, give: seq<Machine>, reply: seq<byte>)

  ghost predicate IsPlan(p: Plan) {
    && |p.read| == |p.job.bytes| + 1 && |p.give| == p.job.count + 1 && |p.reply| == p.job.count
    && (forall k :: 0 <= k < |p.job.bytes| ==> p.read[k + 1] == Take(p.read[k], p.job.bytes[k]))
    && (forall k :: 0 <= k < |p.job.bytes| ==> Reads(p.read[k].phase))
    && (forall n :: 0 <= n < p.job.count ==>
          p.reply[n] == Offer(p.give[n]) && p.give[n + 1] == Given(p.give[n]) && p.give[n].phase.Saving?)
    && (p.job.count > 0 ==>
          && p.read[|p.job.bytes|].phase.Turning?
          && p.give[0] == Turn(p.read[|p.job.bytes|])
          && !p.give[p.job.count].phase.Saving?)
  }

  function PlanOf(j: Job): Plan {
    Plan(j, seq(|j.bytes| + 1, k requires 0 <= k <= |j.bytes| => TakeAll(j.server, j.bytes[..k])),
         seq(j.count + 1, n requires 0 <= n <= j.count => GiveN(Turned(j), n)), Offers(Turned(j), j.count))
  }

  lemma PlanReads(j: Job, k: nat)
    requires k < |j.bytes|
    ensures TakeAll(j.server, j.bytes[..k + 1]) == Take(TakeAll(j.server, j.bytes[..k]), j.bytes[k])
  {
    var more := j.bytes[..k + 1];
    assert more[..|more| - 1] == j.bytes[..k];
  }

  lemma PlanGives(m: Machine, n: nat)
    ensures GiveN(m, n + 1) == Given(GiveN(m, n))
  {
  }

  lemma PlanIsPlan(j: Job)
    requires Answers(j)
    ensures IsPlan(PlanOf(j)) && PlanOf(j).read[0] == j.server
  {
    var p := PlanOf(j);
    assert j.bytes[..|j.bytes|] == j.bytes;
    forall k | 0 <= k < |j.bytes|
      ensures p.read[k + 1] == Take(p.read[k], j.bytes[k]) && Reads(p.read[k].phase)
    {
      PlanReads(j, k);
    }
    var turned, offers := Turned(j), Offers(Turned(j), j.count);
    PlanReplies(j, p, turned, offers);
  }

  lemma PlanReplies(j: Job, p: Plan, turned: Machine, offers: seq<byte>)
    requires offers == Offers(turned, j.count)
    requires |p.give| == j.count + 1 && forall n :: 0 <= n <= j.count ==> p.give[n] == GiveN(turned, n)
    ensures forall n :: 0 <= n < j.count ==> offers[n] == Offer(p.give[n]) && p.give[n + 1] == Given(p.give[n])
  {
    forall n | 0 <= n < j.count ensures p.give[n + 1] == Given(p.give[n]) {
      PlanGives(turned, n);
    }
  }

  // ---- the invariant -------------------------------------------------------------------------

  /** Nothing is under way: `i` bytes have been sent, taken and acknowledged. */
  ghost predicate Quiet(p: Plan, s: State, i: nat)
    requires IsPlan(p)
  {
    && i <= |p.job.bytes| && s.taken == p.job.bytes[..i] && s.m == p.read[i] && s.got == s.gave == []
    && s.at.Wait? && !s.latch && s.flips == s.seen && s.strobes == s.flips && !s.serverOut
  }

  /** Byte `i` is on its way: strobed, noticed, taken, or acknowledged. */
  ghost predicate Sending(p: Plan, s: State, i: nat)
    requires IsPlan(p)
  {
    && i < |p.job.bytes| && s.data == p.job.bytes[i] && s.got == s.gave == []
    && s.pcOut && !s.serverOut
    && (var n := if s.at.Ack? || (s.at.Wait? && !s.latch) then i + 1 else i;
        s.taken == p.job.bytes[..n] && s.m == p.read[n])
    && match s.at
       case Wait => if s.latch then Owed(s) else Answered(s)
       case Read => !s.latch && Owed(s)
       case Ack => !s.latch && Owed(s)
       case _ => false
  }

  /** The PC has strobed and the server has yet to flip PA2. */
  predicate Owed(s: State) {
    s.flips == s.seen && s.strobes == s.flips + 1
  }

  /** The server has flipped PA2 and the PC has yet to notice. */
  predicate Answered(s: State) {
    s.flips == s.seen + 1 && s.strobes == s.flips
  }

  /** The PC waits for byte `i`. */
  ghost predicate Receiving(p: Plan, s: State, i: nat)
    requires IsPlan(p)
  {
    && i < p.job.count && s.got == p.reply[..i] && !s.pcOut && s.taken == p.job.bytes
    && match s.at
       case Wait => i == 0 && s.latch && Owed(s) && !s.serverOut && s.gave == [] && s.m == p.read[|p.job.bytes|]
       case Drive => i == 0 && !s.latch && Owed(s) && !s.serverOut && s.gave == [] && s.m == p.read[|p.job.bytes|]
       case Put => !s.latch && Owed(s) && s.serverOut && s.gave == p.reply[..i] && s.m == p.give[i]
       case Flip =>
         !s.latch && Owed(s) && s.serverOut && s.gave == p.reply[..i + 1] && s.m == p.give[i] && s.data == p.reply[i]
       case WaitBack =>
         if s.latch then i > 0 && Owed(s) && s.serverOut && s.gave == p.reply[..i] && s.m == p.give[i - 1]
         else Answered(s) && s.serverOut && s.gave == p.reply[..i + 1] && s.m == p.give[i] && s.data == p.reply[i]
       case _ => false
  }

  /** Byte `i` is on the port and noticed; `n` bytes have been stored. */
  ghost predicate Replied(p: Plan, s: State, i: nat, n: nat)
    requires IsPlan(p)
  {
    && i < p.job.count && n <= p.job.count && s.got == p.reply[..n] && !s.pcOut && s.taken == p.job.bytes
    && s.at.WaitBack? && !s.latch && s.flips == s.seen && s.strobes == s.flips
    && s.serverOut && s.gave == p.reply[..i + 1] && s.m == p.give[i] && s.data == p.reply[i]
  }

  ghost predicate Finished(p: Plan, s: State)
    requires IsPlan(p)
  {
    if p.job.count == 0 then Quiet(p, s, |p.job.bytes|) && s.pcOut
    else
      && s.got == s.gave == p.reply && !s.pcOut && s.taken == p.job.bytes && Owed(s)
      && match s.at
         case WaitBack => s.latch && s.serverOut && s.m == p.give[p.job.count - 1]
         case Release => !s.latch && s.serverOut && s.m == p.give[p.job.count]
         case Wait => !s.latch && !s.serverOut && s.m == p.give[p.job.count]
         case _ => false
  }

  ghost predicate Inv(p: Plan, s: State)
    requires IsPlan(p)
  {
    && s.strobes == s.heard + (if s.latch then 1 else 0)
    && s.flips == s.seen + (if s.pa2 != s.last then 1 else 0)
    && match s.pc
       case Send => Quiet(p, s, s.i) && s.pcOut
       case Closed => Quiet(p, s, s.i)
       case Strobe => Quiet(p, s, s.i) && s.pcOut && s.i < |p.job.bytes| && s.data == p.job.bytes[s.i]
       case SendWait => Sending(p, s, s.i)
       case SendFailed => Sending(p, s, s.i)
       case TurnInput => Quiet(p, s, |p.job.bytes|) && p.job.count > 0
       case TurnStrobe => Quiet(p, s, |p.job.bytes|) && p.job.count > 0 && !s.pcOut
       case RecvWait => Receiving(p, s, s.i)
       case RecvFailed => Receiving(p, s, s.i)
       case RecvRead => Replied(p, s, s.i, s.i)
       case RecvStrobe => Replied(p, s, s.i, s.i + 1)
       case Done => Finished(p, s)
  }

  lemma PcKeepsSending(p: Plan, s: State)
    requires IsPlan(p) && Inv(p, s) && s.pc in {Send, Strobe, SendWait, Closed, TurnInput, TurnStrobe}
    ensures Inv(p, PcDoes(p.job, s))
  {
    assert p.job.bytes[..|p.job.bytes|] == p.job.bytes;
  }

  lemma PcKeepsReceiving(p: Plan, s: State)
    requires IsPlan(p) && Inv(p, s) && s.pc in {RecvWait, RecvRead, RecvStrobe}
    ensures Inv(p, PcDoes(p.job, s))
  {
    assert s.pc.RecvRead? ==> p.reply[..s.i] + [p.reply[s.i]] == p.reply[..s.i + 1];
    assert p.reply[..p.job.count] == p.reply;
  }

  lemma ServerKeepsSending(p: Plan, s: State)
    requires IsPlan(p) && Inv(p, s) && s.pc in {SendWait, SendFailed}
    ensures Inv(p, ServerDoes(s))
  {
    assert p.job.bytes[..s.i] + [s.data] == p.job.bytes[..s.i + 1];
  }

  lemma ServerKeepsReceiving(p: Plan, s: State)
    requires IsPlan(p) && Inv(p, s) && s.pc in {RecvWait, RecvFailed}
    ensures Inv(p, ServerDoes(s))
  {
    assert p.reply[..s.i] + [p.reply[s.i]] == p.reply[..s.i + 1];
  }

  lemma ServerKeepsFinished(p: Plan, s: State)
    requires IsPlan(p) && Inv(p, s) && s.pc.Done?
    ensures Inv(p, ServerDoes(s))
  {
  }

  lemma ServerKeepsIdle(p: Plan, s: State)
    requires IsPlan(p) && Inv(p, s)
    requires s.pc in {Send, Strobe, Closed, TurnInput, TurnStrobe, RecvRead, RecvStrobe}
    ensures ServerDoes(s) == s
  {
  }

  /** Every move of either side keeps the invariant. */
  lemma DoKeeps(p: Plan, s: State, a: Action)
    requires IsPlan(p) && Inv(p, s)
    ensures Inv(p, Do(p.job, s, a))
  {
    match a
    case PcMove =>
      if s.pc in {Send, Strobe, SendWait, Closed, TurnInput, TurnStrobe} {
        PcKeepsSending(p, s);
      } else if s.pc in {RecvWait, RecvRead, RecvStrobe} {
        PcKeepsReceiving(p, s);
      }
    case ServerMove =>
      if s.pc in {SendWait, SendFailed} {
        ServerKeepsSending(p, s);
      } else if s.pc in {RecvWait, RecvFailed} {
        ServerKeepsReceiving(p, s);
      } else if s.pc.Done? {
        ServerKeepsFinished(p, s);
      } else {
        ServerKeepsIdle(p, s);
      }
    case _ => TimeoutKeeps(p, s, a);
  }

  lemma TimeoutKeeps(p: Plan, s: State, a: Action)
    requires IsPlan(p) && Inv(p, s) && (a.PcTimeout? || a.PcClose?)
    ensures Inv(p, Do(p.job, s, a))
  {
  }

  // ---- every schedule -------------------------------------------------------------------------

  lemma {:induction false} ExecKeeps(p: Plan, pa2: bool, noise: byte, schedule: seq<Action>)
    requires IsPlan(p) && p.read[0] == p.job.server
    ensures Inv(p, Exec(p.job, Start(p.job, pa2, noise), schedule))
  {
    if schedule != [] {
      var init := schedule[..|schedule| - 1];
      ExecKeeps(p, pa2, noise, init);
      DoKeeps(p, Exec(p.job, Start(p.job, pa2, noise), init), schedule[|schedule| - 1]);
    }
  }

  /**
    Lock step.  Whatever the schedule: strobes and flips alternate, no strobe is made before
    the last one was noticed and no flip before the last one was seen, never do both sides
    drive the port, and what either side has taken is a prefix of what the other offered.
   */
  lemma LockStep(j: Job, pa2: bool, noise: byte, schedule: seq<Action>)
    requires Answers(j)
    ensures var s := Exec(j, Start(j, pa2, noise), schedule);
            && s.flips <= s.strobes <= s.flips + 1
            && s.heard <= s.strobes <= s.heard + 1
            && s.seen <= s.flips <= s.seen + 1
            && !(s.pcOut && s.serverOut)
            && s.taken <= j.bytes && s.gave <= Offers(Turned(j), j.count) && s.got <= s.gave
  {
    var p := PlanOf(j);
    PlanIsPlan(j);
    ExecKeeps(p, pa2, noise, schedule);
    InvLockStep(p, Exec(j, Start(j, pa2, noise), schedule));
  }

  lemma InvLockStep(p: Plan, s: State)
    requires IsPlan(p) && Inv(p, s)
    ensures s.flips <= s.strobes <= s.flips + 1
    ensures s.heard <= s.strobes <= s.heard + 1
    ensures s.seen <= s.flips <= s.seen + 1
    ensures !(s.pcOut && s.serverOut)
    ensures s.taken <= p.job.bytes && s.gave <= p.reply && s.got <= s.gave
  {
  }

  /**
    Exact outcome.  Success means that every byte went over, in order, and that the server
    is where all the bytes take it.  After a send time-out at index `i` the server has taken
    the first `i` or `i + 1` bytes; after a receive time-out at index `i` exactly the first
    `i` bytes have been stored.
   */
  lemma Outcome(j: Job, pa2: bool, noise: byte, schedule: seq<Action>)
    requires Answers(j)
    ensures var s := Exec(j, Start(j, pa2, noise), schedule);
            && (s.pc.Done? ==> s.taken == j.bytes && s.got == Offers(Turned(j), j.count))
            && (s.pc.Done? && j.count == 0 ==> s.m == TakeAll(j.server, j.bytes))
            && (s.pc.SendFailed? ==>
                  s.i < |j.bytes| && (s.taken == j.bytes[..s.i] || s.taken == j.bytes[..s.i + 1]) && s.got == [])
            && (s.pc.RecvFailed? ==>
                  s.i < j.count && s.taken == j.bytes && s.got == Offers(Turned(j), j.count)[..s.i])
  {
    var p := PlanOf(j);
    PlanIsPlan(j);
    ExecKeeps(p, pa2, noise, schedule);
    assert j.bytes[..|j.bytes|] == j.bytes;
    InvOutcome(p, Exec(j, Start(j, pa2, noise), schedule));
  }

  lemma InvOutcome(p: Plan, s: State)
    requires IsPlan(p) && Inv(p, s)
    ensures s.pc.Done? ==> s.taken == p.job.bytes && s.got == p.reply
    ensures s.pc.Done? && p.job.count == 0 ==> s.m == p.read[|p.job.bytes|]
    ensures s.pc.SendFailed? ==> s.i < |p.job.bytes| && s.got == []
    ensures s.pc.SendFailed? ==> s.taken == p.job.bytes[..s.i] || s.taken == p.job.bytes[..s.i + 1]
    ensures s.pc.RecvFailed? ==> s.i < p.job.count && s.taken == p.job.bytes && s.got == p.reply[..s.i]
  {
  }

  // ---- no deadlock ------------------------------------------------------------------------------

  predicate Over(s: State) {
    s.pc in {Done, SendFailed, RecvFailed}
  }

  /** Steps that are left until the PC is done. */
  ghost function Left(j: Job, s: State): int {
    var send := 6 * (|j.bytes| - s.i) + 7 * j.count + 3;
    var recv := 7 * (j.count - s.i);
    match s.pc
    case Send => send
    case Closed => send + 1
    case Strobe => send - 1
    case SendWait =>
      send - (match s.at case Read => 3 case Ack => 4 case _ => if s.latch then 2 else 5)
    case TurnInput => 7 * j.count + 2
    case TurnStrobe => 7 * j.count + 1
    case RecvWait =>
      recv - (match s.at case Drive => 1 case Put => 2 case Flip => 3 case _ => if s.latch then 0 else 4)
    case RecvRead => recv - 5
    case RecvStrobe => recv - 6
    case _ => 0
  }

  /** The side that is not waiting for the other. */
  function NextToMove(s: State): Action {
    if s.pc in {SendWait, RecvWait} && s.pa2 == s.last then ServerMove else PcMove
  }

  function OtherSide(a: Action): Action {
    if a.PcMove? then ServerMove else PcMove
  }

  /** Exactly one side can move, and its move brings the end closer. */
  ghost predicate Progresses(j: Job, s: State) {
    var next := Do(j, s, NextToMove(s));
    && 0 <= Left(j, next) < Left(j, s)
    && Do(j, s, OtherSide(NextToMove(s))) == s
    && !next.pc.SendFailed? && !next.pc.RecvFailed?
  }

  lemma SendProgresses(p: Plan, s: State)
    requires IsPlan(p) && Inv(p, s) && s.pc in {Send, Strobe, Closed}
    ensures Progresses(p.job, s)
  {
    ServerKeepsIdle(p, s);
  }

  lemma SendWaitProgresses(p: Plan, s: State)
    requires IsPlan(p) && Inv(p, s) && s.pc.SendWait?
    ensures Progresses(p.job, s)
  {
  }

  lemma TurnProgresses(p: Plan, s: State)
    requires IsPlan(p) && Inv(p, s) && s.pc in {TurnInput, TurnStrobe}
    ensures Progresses(p.job, s)
  {
    ServerKeepsIdle(p, s);
  }

  lemma RecvWaitProgresses(p: Plan, s: State)
    requires IsPlan(p) && Inv(p, s) && s.pc.RecvWait?
    ensures Progresses(p.job, s)
  {
    if s.pa2 != s.last {
      assert s.at.WaitBack? && !s.latch;
    } else if s.at.WaitBack? {
      NextByteProgresses(p, s);
    } else {
      FirstByteProgresses(p, s);
    }
  }

  /** The server has heard of the byte before, and goes round its save loop. */
  lemma NextByteProgresses(p: Plan, s: State)
    requires IsPlan(p) && Inv(p, s) && s.pc.RecvWait? && s.pa2 == s.last && s.at.WaitBack?
    ensures Progresses(p.job, s)
  {
    assert s.latch && s.m == p.give[s.i - 1] && Given(s.m) == p.give[s.i];
  }

  lemma FirstByteProgresses(p: Plan, s: State)
    requires IsPlan(p) && Inv(p, s) && s.pc.RecvWait? && s.pa2 == s.last && !s.at.WaitBack?
    ensures Progresses(p.job, s)
  {
  }

  lemma ReceiveProgresses(p: Plan, s: State)
    requires IsPlan(p) && Inv(p, s) && s.pc in {RecvRead, RecvStrobe}
    ensures Progresses(p.job, s)
  {
    ServerKeepsIdle(p, s);
  }

  /** Until the PC is over, exactly one side can move, and its move brings the end closer. */
  lemma OneSideMoves(p: Plan, s: State)
    requires IsPlan(p) && Inv(p, s) && !Over(s)
    ensures Progresses(p.job, s)
  {
    match s.pc
    case SendWait => SendWaitProgresses(p, s);
    case RecvWait => RecvWaitProgresses(p, s);
    case TurnInput => TurnProgresses(p, s);
    case TurnStrobe => TurnProgresses(p, s);
    case RecvRead => ReceiveProgresses(p, s);
    case RecvStrobe => ReceiveProgresses(p, s);
    case _ => SendProgresses(p, s);
  }

  lemma {:induction false} ExecConcat(j: Job, s: State, a: seq<Action>, b: seq<Action>)
    ensures Exec(j, s, a + b) == Exec(j, Exec(j, s, a), b)
  {
    if b == [] {
      assert a + b == a;
    } else {
      assert (a + b)[..|a + b| - 1] == a + b[..|b| - 1];
      ExecConcat(j, s, a, b[..|b| - 1]);
    }
  }

  lemma {:induction false} CanFinish(p: Plan, s: State) returns (rest: seq<Action>)
    requires IsPlan(p) && Inv(p, s) && !s.pc.SendFailed? && !s.pc.RecvFailed?
    ensures Exec(p.job, s, rest).pc.Done? && |rest| <= if s.pc.Done? then 0 else Left(p.job, s)
    decreases if s.pc.Done? then -1 else Left(p.job, s)
  {
    if s.pc.Done? {
      rest := [];
    } else {
      var a := NextToMove(s);
      OneSideMoves(p, s);
      DoKeeps(p, s, a);
      var more := CanFinish(p, Do(p.job, s, a));
      rest := [a] + more;
      assert Exec(p.job, s, [a]) == Do(p.job, Exec(p.job, s, []), a);
      ExecConcat(p.job, s, [a], more);
    }
  }

  /** No reachable state is stuck: unless the PC has given up, it can still finish. */
  lemma NoDeadlock(j: Job, pa2: bool, noise: byte, schedule: seq<Action>) returns (rest: seq<Action>)
    requires Answers(j)
    requires !Exec(j, Start(j, pa2, noise), schedule).pc.SendFailed?
    requires !Exec(j, Start(j, pa2, noise), schedule).pc.RecvFailed?
    ensures Exec(j, Start(j, pa2, noise), schedule + rest).pc.Done?
  {
    var p := PlanOf(j);
    PlanIsPlan(j);
    ExecKeeps(p, pa2, noise, schedule);
    rest := CanFinish(p, Exec(j, Start(j, pa2, noise), schedule));
    ExecConcat(j, Start(j, pa2, noise), schedule, rest);
  }

  // ---- time-outs and reopening ---------------------------------------------------------------------

  /** What the PC has to do with: all of the state but the server's side of it. */
  predicate PcAsBefore(s: State, t: State) {
    && t.pc == s.pc && t.i == s.i && t.got == s.got && t.pcOut == s.pcOut
    && t.strobes == s.strobes && t.seen == s.seen && t.last == s.last
  }

  lemma ServerLeavesPc(s: State)
    ensures PcAsBefore(s, ServerDoes(s))
  {
    match s.at
    case WaitBack =>
    case Flip =>
    case _ =>
  }

  lemma FailedStep(j: Job, s: State, t: State, a: Action)
    requires s.pc in {SendFailed, RecvFailed} && PcAsBefore(s, t)
    ensures PcAsBefore(s, Do(j, t, a))
  {
    match a
    case ServerMove => ServerLeavesPc(t);
    case PcMove => assert PcDoes(j, t) == t;
    case _ =>
  }

  lemma {:induction false} FailedStays(j: Job, s: State, later: seq<Action>)
    requires s.pc in {SendFailed, RecvFailed}
    ensures PcAsBefore(s, Exec(j, s, later))
  {
    if later != [] {
      FailedStays(j, s, later[..|later| - 1]);
      FailedStep(j, s, Exec(j, s, later[..|later| - 1]), later[|later| - 1]);
    }
  }

  /** A time-out while it waits ends the call: whatever comes, the PC makes no further move. */
  lemma TimeoutEnds(j: Job, s: State, later: seq<Action>)
    requires s.pc in {SendWait, RecvWait}
    ensures var failed := Do(j, s, PcTimeout);
            && failed == s.(pc := if s.pc.SendWait? then SendFailed else RecvFailed)
            && PcAsBefore(failed, Exec(j, failed, later))
  {
    FailedStays(j, Do(j, s, PcTimeout), later);
  }

  /** A server that does not move: no send succeeds, in any schedule, and a time-out is possible. */
  lemma {:induction false} SilentServer(j: Job, pa2: bool, noise: byte, schedule: seq<Action>)
    requires j.bytes != [] && forall k :: 0 <= k < |schedule| ==> schedule[k] != ServerMove
    ensures var s := Exec(j, Start(j, pa2, noise), schedule);
            && s.pc in {Send, Strobe, SendWait, SendFailed} && s.i == 0 && s.taken == s.got == []
            && s.pa2 == s.last && s.m == j.server
    ensures Exec(j, Start(j, pa2, noise), [PcMove, PcMove, PcTimeout]).pc.SendFailed?
  {
    if schedule != [] {
      SilentServer(j, pa2, noise, schedule[..|schedule| - 1]);
    }
    assert [PcMove, PcMove, PcTimeout][..2] == [PcMove, PcMove] && [PcMove, PcMove][..1] == [PcMove];
    assert [PcMove][..0] == [];
    assert Exec(j, Start(j, pa2, noise), [PcMove]).pc.Strobe?;
    assert Exec(j, Start(j, pa2, noise), [PcMove, PcMove]).pc.SendWait?;
  }

  /** Between two bytes the driver may be closed; opened again it goes on with the next byte. */
  lemma CloseReopens(j: Job, s: State)
    requires s.pc.Send? && 0 < s.i < |j.bytes|
    ensures var closed := Do(j, s, PcClose);
            && closed == s.(pcOut := false, pc := Closed)
            && Do(j, closed, PcMove) == s.(last := s.pa2, pcOut := true)
  {
  }

  // ---- the end of a send -----------------------------------------------------------------------------

  /** The state without the history of one call. */
  function Fresh(s: State): State {
    s.(pc := Send, i := 0, taken := [], strobes := 0, heard := 0, flips := 0, seen := 0)
  }

  /** A send that succeeds leaves everything as the next call starts from it. */
  lemma SendEndsReady(j: Job, pa2: bool, noise: byte, schedule: seq<Action>, next: Job)
    requires Answers(j) && j.count == 0
    ensures var s := Exec(j, Start(j, pa2, noise), schedule);
            s.pc.Done? && next.server == s.m ==> Fresh(s) == Start(next, s.pa2, s.data)
  {
    var p := PlanOf(j);
    PlanIsPlan(j);
    ExecKeeps(p, pa2, noise, schedule);
    DoneIsStart(p, Exec(j, Start(j, pa2, noise), schedule), next);
  }

  lemma DoneIsStart(p: Plan, s: State, next: Job)
    requires IsPlan(p) && Inv(p, s) && p.job.count == 0
    ensures s.pc.Done? && next.server == s.m ==> Fresh(s) == Start(next, s.pa2, s.data)
  {
  }

  // ---- the end of a save ---------------------------------------------------------------------------

  /**
    When the PC has its last byte the server still drives the port and has not noticed the
    last strobe, in every schedule.  A PC that went on at once would drive against it, and
    its next strobe would be lost in the one still latched.
   */
  lemma SaveEndsDriven(j: Job, pa2: bool, noise: byte, schedule: seq<Action>)
    requires Answers(j)
    requires var s := Exec(j, Start(j, pa2, noise), schedule); s.pc.RecvStrobe? && s.i + 1 == j.count
    ensures var done := Do(j, Exec(j, Start(j, pa2, noise), schedule), PcMove);
            && done.pc.Done? && done.serverOut && done.latch
            && MakeStrobe(done).(strobes := done.strobes) == done
  {
    var p := PlanOf(j);
    PlanIsPlan(j);
    ExecKeeps(p, pa2, noise, schedule);
  }

  function ServerMoves(schedule: seq<Action>): nat {
    if schedule == [] then 0
    else ServerMoves(schedule[..|schedule| - 1]) + if schedule[|schedule| - 1].ServerMove? then 1 else 0
  }

  /** A strobe made now would be lost in the one that is still latched. */
  predicate StrobeLost(s: State) {
    MakeStrobe(s).(strobes := s.strobes) == s
  }

  /** How far the server is behind the PC's last strobe. */
  predicate Moved(at: ServerAt, n: nat) {
    if n == 0 then at.WaitBack? else if n == 1 then at.Release? else at.Wait?
  }

  lemma EndStep(p: Plan, s: State, a: Action, n: nat)
    requires IsPlan(p) && Inv(p, s) && s.pc.Done? && p.job.count > 0 && Moved(s.at, n)
    ensures var t := Do(p.job, s, a);
            t.pc.Done? && Moved(t.at, if a.ServerMove? then n + 1 else n)
  {
  }

  lemma {:induction false} EndOfSave(p: Plan, s: State, later: seq<Action>)
    requires IsPlan(p) && Inv(p, s) && s.pc.Done? && p.job.count > 0 && Moved(s.at, 0)
    ensures var t := Exec(p.job, s, later);
            Inv(p, t) && t.pc.Done? && Moved(t.at, ServerMoves(later))
  {
    if later != [] {
      var init, a := later[..|later| - 1], later[|later| - 1];
      EndOfSave(p, s, init);
      DoKeeps(p, Exec(p.job, s, init), a);
      EndStep(p, Exec(p.job, s, init), a, ServerMoves(init));
    }
  }

  /**
    From the PC's last strobe on, whatever happens then: the server drives the port until it has
    made two moves, and a strobe is lost until it has made one.
   */
  lemma SaveEndExact(j: Job, pa2: bool, noise: byte, schedule: seq<Action>, later: seq<Action>)
    requires Answers(j)
    requires var s := Exec(j, Start(j, pa2, noise), schedule); s.pc.RecvStrobe? && s.i + 1 == j.count
    ensures var s := Exec(j, Start(j, pa2, noise), schedule + [PcMove] + later);
            && s.pc.Done?
            && (s.serverOut <==> ServerMoves(later) < 2)
            && (StrobeLost(s) <==> ServerMoves(later) < 1)
  {
    var p := PlanOf(j);
    PlanIsPlan(j);
    var start, strobed := Start(j, pa2, noise), schedule + [PcMove];
    ExecKeeps(p, pa2, noise, schedule);
    ExecKeeps(p, pa2, noise, strobed);
    assert strobed[..|strobed| - 1] == schedule;
    EndOfSave(p, Exec(j, start, strobed), later);
    ExecConcat(j, start, strobed, later);
  }

  /** Two server moves later the port is free and the server is behind its save loop. */
  lemma SaveReleases(j: Job, pa2: bool, noise: byte, schedule: seq<Action>)
    requires Answers(j) && j.count > 0
    requires Exec(j, Start(j, pa2, noise), schedule).pc.Done?
    ensures var s := Exec(j, Start(j, pa2, noise), schedule + [ServerMove, ServerMove]);
            !s.serverOut && !s.latch && s.at.Wait? && s.m == GiveN(Turned(j), j.count)
  {
    var p := PlanOf(j);
    PlanIsPlan(j);
    var start := Start(j, pa2, noise);
    ExecKeeps(p, pa2, noise, schedule);
    TwoMoves(j, Exec(j, start, schedule));
    ExecConcat(j, start, schedule, [ServerMove, ServerMove]);
    ReleaseSteps(p, Exec(j, start, schedule));
  }

  lemma TwoMoves(j: Job, s: State)
    ensures Exec(j, s, [ServerMove, ServerMove]) == ServerDoes(ServerDoes(s))
  {
    assert [ServerMove, ServerMove][..1] == [ServerMove] && [ServerMove][..0] == [];
    assert Exec(j, s, []) == s && Exec(j, s, [ServerMove]) == ServerDoes(s);
  }

  lemma ReleaseSteps(p: Plan, s: State)
    requires IsPlan(p) && Inv(p, s) && s.pc.Done? && p.job.count > 0
    ensures var later := ServerDoes(ServerDoes(s));
            !later.serverOut && !later.latch && later.at.Wait? && later.m == p.give[p.job.count]
  {
  }
}
