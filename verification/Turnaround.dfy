/**
  The open-ended exchange of xlink.c: `xlink_begin`, `xlink_send`, `xlink_receive`, `xlink_end`.
  The driver's port calls are kept in a log. The server may drive the port from a turnaround
  strobe until the PC has waited for its answer; the PC drives it from `output` until `input`
  or until the driver is opened again, which makes the port an input (driver/shm.c:74,
  driver/parport.c:80-85). A turnaround wait is one that succeeds.
 */
module Turnaround {

  datatype Mode = IDLE | INPUT | OUTPUT

  datatype Call = Open | Wait | Output | Strobe | Input | SendData | ReceiveData | Close

  /** One use of the library: whether the driver opens, and whether the transfer then succeeds. */
  datatype Use = Begin | Send(opens: bool, succeeds: bool) | Receive(opens: bool, succeeds: bool) | End

  datatype State = State(mode: Mode, log: seq<Call>)

  /** xlink.c, with the driver that keeps the log. */
  class Link {
    var mode: Mode
    ghost var log: seq<Call>

    ghost function View(): State
      reads this
    {
      State(mode, log)
    }

    constructor ()
      ensures View() == State(IDLE, [])
    {
      mode, log := IDLE, [];
    }

    method Do(call: Call)
      modifies this`log
      ensures log == old(log) + [call]
    {
      log := log + [call];
    }

    /** A turnaround that is due is forgotten. */
    method Begin()
      modifies this
      ensures View() == After(old(View()), Use.Begin)
      ensures log == old(log) && Lost(View()) == old(Lost(View())) + old(Owed(mode))
    {
      mode := IDLE;
      UseStep(old(View()), Use.Begin);
    }

    method Send(opens: bool, succeeds: bool) returns (result: bool)
      modifies this
      ensures result == (opens && succeeds)
      ensures View() == After(old(View()), Use.Send(opens, succeeds))
      ensures if opens then mode == OUTPUT && PcDrives(log) else unchanged(this)
      ensures opens ==> Transfers(log) == old(Transfers(log)) + [SendData]
      ensures RightWay(log) == old(RightWay(log))
      ensures Pending(log) == old(Pending(log)) - (if opens && old(mode) == INPUT then 1 else 0)
      ensures Lost(View()) == old(Lost(View()))
      ensures OneSideAtATime(log) <==> old(OneSideAtATime(log)) && !(opens && old(Lost(View())) > 0)
    {
      ghost var before := View();
      result := false;
      if opens {
        Do(Open);
        if mode == INPUT {
          Do(Wait);
        }
        Do(Output);
        mode := OUTPUT;
        Do(SendData);
        result := succeeds;
        Do(Close);
      }
      Chained(before.log, Open, Wait, Output, SendData, Close);
      assert View() == After(before, Use.Send(opens, succeeds));
      UseStep(before, Use.Send(opens, succeeds));
      UseTransfers(before, Use.Send(opens, succeeds));
    }

    method Receive(opens: bool, succeeds: bool) returns (result: bool)
      modifies this
      ensures result == (opens && succeeds)
      ensures View() == After(old(View()), Use.Receive(opens, succeeds))
      ensures if opens then !PcDrives(log) && (mode == INPUT <==> old(mode) != IDLE) else unchanged(this)
      ensures opens ==> Transfers(log) == old(Transfers(log)) + [ReceiveData]
      ensures RightWay(log) == old(RightWay(log))
      ensures Pending(log) == old(Pending(log)) + (if opens && old(mode) == OUTPUT then 1 else 0)
      ensures Lost(View()) == old(Lost(View()))
      ensures OneSideAtATime(log) <==> old(OneSideAtATime(log))
    {
      ghost var before := View();
      result := false;
      if opens {
        Do(Open);
        Do(Input);
        if mode == OUTPUT {
          Do(Strobe);
          mode := INPUT;
        }
        Do(ReceiveData);
        result := succeeds;
        Do(Close);
      }
      Chained(before.log, Open, Input, Strobe, ReceiveData, Close);
      assert View() == After(before, Use.Receive(opens, succeeds));
      UseStep(before, Use.Receive(opens, succeeds));
      UseTransfers(before, Use.Receive(opens, succeeds));
    }

    /** The same: the driver cannot tell. */
    method End()
      modifies this
      ensures View() == After(old(View()), Use.End)
      ensures log == old(log) && Lost(View()) == old(Lost(View())) + old(Owed(mode))
    {
      mode := IDLE;
      UseStep(old(View()), Use.End);
    }

    /** Any run of the library from the start. */
    method Session(uses: seq<Use>)
      requires View() == State(IDLE, [])
      modifies this
      ensures View() == Run(State(IDLE, []), uses)
      ensures Lost(View()) == Abandoned(State(IDLE, []), uses)
      ensures OneSideAtATime(log) <==> NoneIntrudes(State(IDLE, []), uses)
      ensures Transfers(log) == Asked(uses) && RightWay(log)
    {
      assert uses[..0] == [];
      for i := 0 to |uses|
        invariant View() == Run(State(IDLE, []), uses[..i])
      {
        assert uses[..i + 1][..i] == uses[..i];
        match uses[i]
        case Begin => Begin();
        case End => End();
        case Send(opens, succeeds) => var result := Send(opens, succeeds);
        case Receive(opens, succeeds) => var result := Receive(opens, succeeds);
      }
      assert uses[..|uses|] == uses;
      TurnaroundsCounted(State(IDLE, []), uses);
      PortIsShared(uses);
      TransfersAsked(uses);
    }
  }

  lemma Chained(log: seq<Call>, a: Call, b: Call, c: Call, d: Call, e: Call)
    ensures log + [a] + [b] + [c] + [d] + [e] == log + [a, b, c, d, e]
    ensures log + [a] + [b] + [d] + [e] == log + [a, b, d, e]
    ensures log + [a] + [c] + [d] + [e] == log + [a, c, d, e]
  {
  }

  function Calls(mode: Mode, u: Use): seq<Call> {
    match u
    case Begin => []
    case End => []
    case Send(opens, _) =>
      if !opens then []
      else if mode == INPUT then [Open, Wait, Output, SendData, Close]
      else [Open, Output, SendData, Close]
    case Receive(opens, _) =>
      if !opens then []
      else if mode == OUTPUT then [Open, Input, Strobe, ReceiveData, Close]
      else [Open, Input, ReceiveData, Close]
  }

  function After(s: State, u: Use): State {
    var mode := match u
      case Begin => IDLE
      case End => IDLE
      case Send(opens, _) => if opens then OUTPUT else s.mode
      case Receive(opens, _) => if opens && s.mode == OUTPUT then INPUT else s.mode;
    State(mode, s.log + Calls(s.mode, u))
  }

  function Run(s: State, uses: seq<Use>): State {
    if uses == [] then s else After(Run(s, uses[..|uses| - 1]), uses[|uses| - 1])
  }

  // ---- who drives the port ------------------------------------------------------------------------

  /** Turnaround strobes the server has not yet been waited for. */
  function Pending(log: seq<Call>): int {
    if log == [] then 0
    else Pending(log[..|log| - 1]) + match log[|log| - 1]
                                     case Strobe => 1
                                     case Wait => -1
                                     case _ => 0
  }

  predicate PcDrives(log: seq<Call>) {
    log != [] && match log[|log| - 1]
                 case Output => true
                 case Input => false
                 case Open => false
                 case _ => PcDrives(log[..|log| - 1])
  }

  /** At no point of the log the PC drives the port while the server may. */
  predicate OneSideAtATime(log: seq<Call>) {
    log != [] ==> OneSideAtATime(log[..|log| - 1]) && !(PcDrives(log) && Pending(log) > 0)
  }

  /** What has been transferred, in order. */
  function Transfers(log: seq<Call>): seq<Call> {
    if log == [] then []
    else
      var last := log[|log| - 1];
      Transfers(log[..|log| - 1]) + if last in {SendData, ReceiveData} then [last] else []
  }

  /** What one use transfers. */
  function Transferred(u: Use): seq<Call> {
    match u
    case Send(true, _) => [SendData]
    case Receive(true, _) => [ReceiveData]
    case _ => []
  }

  /** What the caller has asked for, as far as the driver opened. */
  function Asked(uses: seq<Use>): seq<Call> {
    if uses == [] then []
    else Asked(uses[..|uses| - 1]) + Transferred(uses[|uses| - 1])
  }

  /** The PC sends only while it drives the port, and receives only while it does not. */
  predicate RightWay(log: seq<Call>) {
    log != [] ==>
      var before, last := log[..|log| - 1], log[|log| - 1];
      RightWay(before) && (last == SendData ==> PcDrives(before)) && (last == ReceiveData ==> !PcDrives(before))
  }

  function Owed(mode: Mode): int {
    if mode == INPUT then 1 else 0
  }

  /** Turnarounds that no wait will be made for. */
  function Lost(s: State): int {
    Pending(s.log) - Owed(s.mode)
  }

  /** How many times an exchange ends, or another begins, while the server still has the port. */
  function Abandoned(s: State, uses: seq<Use>): nat {
    if uses == [] then 0
    else
      var before := uses[..|uses| - 1];
      var u := uses[|uses| - 1];
      Abandoned(s, before) + if (u.Begin? || u.End?) && Run(s, before).mode == INPUT then 1 else 0
  }

  lemma LogStep(log: seq<Call>, c: Call)
    ensures Pending(log + [c]) == Pending(log) + (if c == Strobe then 1 else if c == Wait then -1 else 0)
    ensures PcDrives(log + [c]) == (c == Output || (c != Input && c != Open && PcDrives(log)))
    ensures OneSideAtATime(log + [c]) <==> OneSideAtATime(log) && !(PcDrives(log + [c]) && Pending(log + [c]) > 0)
  {
    assert (log + [c])[..|log|] == log;
  }

  /** The calls after `Open`: a turnaround, the direction, the transfer and `Close`. */
  lemma FourCalls(log: seq<Call>, b: Call, c: Call)
    requires (b == Output && c == SendData) || (b == Input && c == ReceiveData)
    ensures var calls := [Open, b, c, Close];
            && Pending(log + calls) == Pending(log)
            && PcDrives(log + calls) == (b == Output)
            && (OneSideAtATime(log + calls) <==> OneSideAtATime(log) && !(b == Output && Pending(log) > 0))
  {
    var one, two := log + [Open], log + [Open] + [b];
    var three := two + [c];
    LogStep(log, Open);
    LogStep(one, b);
    LogStep(two, c);
    LogStep(three, Close);
    assert log + [Open, b, c, Close] == three + [Close];
  }

  lemma FiveCalls(log: seq<Call>, turn: Call, b: Call, c: Call)
    requires (turn == Wait && b == Output && c == SendData) || (turn == Strobe && b == Input && c == ReceiveData)
    ensures var calls := if turn == Wait then [Open, turn, b, c, Close] else [Open, b, turn, c, Close];
            && Pending(log + calls) == Pending(log) + (if turn == Wait then -1 else 1)
            && PcDrives(log + calls) == (turn == Wait)
            && (OneSideAtATime(log + calls) <==> OneSideAtATime(log) && !(turn == Wait && Pending(log) > 1))
  {
    var p, q := if turn == Wait then turn else b, if turn == Wait then b else turn;
    var one, two := log + [Open], log + [Open] + [p];
    var three := two + [q];
    var four := three + [c];
    LogStep(log, Open);
    LogStep(one, p);
    LogStep(two, q);
    LogStep(three, c);
    LogStep(four, Close);
    assert log + [Open, p, q, c, Close] == four + [Close];
  }

  /** What one use does to the turnarounds and to the port. */
  lemma UseStep(s: State, u: Use)
    ensures Lost(After(s, u)) == Lost(s) + (if u.Begin? || u.End? then Owed(s.mode) else 0)
    ensures OneSideAtATime(After(s, u).log) <==> OneSideAtATime(s.log) && !(u.Send? && u.opens && Lost(s) > 0)
    ensures Calls(s.mode, u) == [] ==> After(s, u).log == s.log
    ensures u.Send? && u.opens ==> PcDrives(After(s, u).log)
    ensures u.Receive? && u.opens ==> !PcDrives(After(s, u).log)
  {
    if Calls(s.mode, u) == [] {
      assert s.log + Calls(s.mode, u) == s.log;
    } else if u.Send? && s.mode == INPUT {
      FiveCalls(s.log, Wait, Output, SendData);
    } else if u.Send? {
      FourCalls(s.log, Output, SendData);
    } else if s.mode == OUTPUT {
      FiveCalls(s.log, Strobe, Input, ReceiveData);
    } else {
      FourCalls(s.log, Input, ReceiveData);
    }
  }

  /** Strobes less waits: one while the state is INPUT, and one for every turnaround abandoned. */
  lemma {:induction false} TurnaroundsCounted(s: State, uses: seq<Use>)
    ensures Pending(Run(s, uses).log) - Pending(s.log)
         == Owed(Run(s, uses).mode) - Owed(s.mode) + Abandoned(s, uses)
  {
    if uses != [] {
      var before := uses[..|uses| - 1];
      TurnaroundsCounted(s, before);
      UseStep(Run(s, before), uses[|uses| - 1]);
    }
  }

  /** Since `xlink_begin`, strobes less waits tell the state, exactly if nothing was abandoned. */
  lemma SinceBegin(s: State, uses: seq<Use>)
    ensures var start := After(s, Begin); var end := Run(start, uses);
            Pending(end.log) - Pending(start.log) == Owed(end.mode) <==> Abandoned(start, uses) == 0
  {
    TurnaroundsCounted(After(s, Begin), uses);
  }

  /** Use `k` takes the port to send although the server was left with it earlier. */
  predicate Intrudes(s: State, uses: seq<Use>, k: nat)
    requires k < |uses|
  {
    uses[k].Send? && uses[k].opens && Abandoned(s, uses[..k]) > 0
  }

  predicate NoneIntrudes(s: State, uses: seq<Use>) {
    forall k :: 0 <= k < |uses| ==> !Intrudes(s, uses, k)
  }

  lemma IntrudesStep(s: State, uses: seq<Use>)
    requires uses != []
    ensures NoneIntrudes(s, uses)
       <==> NoneIntrudes(s, uses[..|uses| - 1]) && !Intrudes(s, uses, |uses| - 1)
  {
    var before := uses[..|uses| - 1];
    forall k | 0 <= k < |before| ensures Intrudes(s, uses, k) == Intrudes(s, before, k) {
      assert before[..k] == uses[..k];
    }
    assert NoneIntrudes(s, before) ==> forall k :: 0 <= k < |before| ==> !Intrudes(s, uses, k);
    if NoneIntrudes(s, uses) {
      forall k | 0 <= k < |before| ensures !Intrudes(s, before, k) {
        assert !Intrudes(s, uses, k);
      }
    }
  }

  /** From a fresh start both sides never drive the port together, exactly if no such use occurs. */
  lemma {:induction false} PortIsShared(uses: seq<Use>)
    ensures OneSideAtATime(Run(State(IDLE, []), uses).log) <==> NoneIntrudes(State(IDLE, []), uses)
  {
    if uses != [] {
      var s, before := State(IDLE, []), uses[..|uses| - 1];
      PortIsShared(before);
      IntrudesStep(s, uses);
      TurnaroundsCounted(s, before);
      UseStep(Run(s, before), uses[|uses| - 1]);
    }
  }

  lemma TransferStep(log: seq<Call>, c: Call)
    ensures PcDrives(log + [c]) == (c == Output || (c != Input && c != Open && PcDrives(log)))
    ensures Transfers(log + [c]) == Transfers(log) + if c in {SendData, ReceiveData} then [c] else []
    ensures RightWay(log + [c])
       <==> RightWay(log) && (c == SendData ==> PcDrives(log)) && (c == ReceiveData ==> !PcDrives(log))
  {
    assert (log + [c])[..|log|] == log;
  }

  /** The calls of a send, with or without a wait ... */
  lemma SendTransfers(log: seq<Call>, turn: seq<Call>)
    requires |turn| <= 1 && (turn != [] ==> turn[0] == Wait)
    ensures var calls := [Open] + turn + [Output, SendData, Close];
            Transfers(log + calls) == Transfers(log) + [SendData] && RightWay(log + calls) == RightWay(log)
  {
    TransferStep(log, Open);
    TurnTransfers(log + [Open], turn);
    LastThree(log + [Open] + turn, Output, SendData);
    assert log + ([Open] + turn + [Output, SendData, Close]) == log + [Open] + turn + [Output, SendData, Close];
  }

  /** ... and of a receive, with or without a strobe. */
  lemma ReceiveTransfers(log: seq<Call>, turn: seq<Call>)
    requires |turn| <= 1 && (turn != [] ==> turn[0] == Strobe)
    ensures var calls := [Open, Input] + turn + [ReceiveData, Close];
            Transfers(log + calls) == Transfers(log) + [ReceiveData] && RightWay(log + calls) == RightWay(log)
  {
    var two, three := log + [Open] + [Input], log + [Open] + [Input] + turn;
    TransferStep(log, Open);
    TransferStep(log + [Open], Input);
    TurnTransfers(two, turn);
    TransferStep(three, ReceiveData);
    TransferStep(three + [ReceiveData], Close);
    assert log + ([Open, Input] + turn + [ReceiveData, Close]) == three + [ReceiveData] + [Close];
  }

  lemma LastThree(log: seq<Call>, way: Call, transfer: Call)
    requires way == Output && transfer == SendData
    ensures var calls := [way, transfer, Close];
            Transfers(log + calls) == Transfers(log) + [transfer] && RightWay(log + calls) == RightWay(log)
  {
    TransferStep(log, way);
    TransferStep(log + [way], transfer);
    TransferStep(log + [way] + [transfer], Close);
    assert log + [way, transfer, Close] == log + [way] + [transfer] + [Close];
  }

  lemma TurnTransfers(log: seq<Call>, turn: seq<Call>)
    requires |turn| <= 1 && (turn != [] ==> turn[0] in {Wait, Strobe})
    ensures PcDrives(log + turn) == PcDrives(log)
    ensures Transfers(log + turn) == Transfers(log) && RightWay(log + turn) == RightWay(log)
  {
    if turn == [] {
      assert log + turn == log;
    } else {
      assert turn == [turn[0]];
      TransferStep(log, turn[0]);
    }
  }

  lemma UseTransfers(s: State, u: Use)
    ensures Transfers(After(s, u).log) == Transfers(s.log) + Transferred(u)
    ensures RightWay(After(s, u).log) == RightWay(s.log)
  {
    if Transferred(u) == [] {
      assert s.log + Calls(s.mode, u) == s.log;
    } else {
      var turn := if u.Send? && s.mode == INPUT then [Wait]
                  else if u.Receive? && s.mode == OUTPUT then [Strobe] else [];
      if u.Send? {
        SendTransfers(s.log, turn);
        assert Calls(s.mode, u) == [Open] + turn + [Output, SendData, Close];
      } else {
        ReceiveTransfers(s.log, turn);
        assert Calls(s.mode, u) == [Open, Input] + turn + [ReceiveData, Close];
      }
    }
  }

  /** Over any run everything asked for is transferred, in order and in the right direction. */
  lemma {:induction false} TransfersAsked(uses: seq<Use>)
    ensures Transfers(Run(State(IDLE, []), uses).log) == Asked(uses)
    ensures RightWay(Run(State(IDLE, []), uses).log)
  {
    if uses != [] {
      var before := uses[..|uses| - 1];
      TransfersAsked(before);
      UseTransfers(Run(State(IDLE, []), before), uses[|uses| - 1]);
    }
  }

  /** The shortest session that goes wrong: `xlink_end` after a receive, then a send. */
  lemma EndLosesTheTurn()
    ensures !OneSideAtATime(Run(State(IDLE, []), [Send(true, true), Receive(true, true), End, Send(true, true)]).log)
  {
    var s, uses := State(IDLE, []), [Send(true, true), Receive(true, true), End, Send(true, true)];
    PortIsShared(uses);
    assert uses[..1] == [Send(true, true)] && uses[..2] == [Send(true, true), Receive(true, true)];
    assert uses[..3] == [Send(true, true), Receive(true, true), End];
    assert uses[..2][..1] == uses[..1] && uses[..3][..2] == uses[..2] && uses[..1][..0] == [];
    assert Run(s, uses[..1]).mode == OUTPUT;
    assert Run(s, uses[..2]).mode == INPUT;
    assert Intrudes(s, uses, 3);
  }
}
