/**
  The receive buffer between driver/serial.c and the firmware's ReadSerial: there is no flow
  control, so the host has to be slow enough.  A schedule says when the next byte of the stream
  arrives and when the firmware takes one.
 */
module SerialBuffer {
  import opened Bytes
  import opened Fifo

  datatype Move = Arrive | Take

  datatype Flow = Flow(queue: seq<byte>, arrived: nat, taken: seq<byte>)

  function Do(stream: seq<byte>, f: Flow, m: Move, capacity: nat): Flow {
    match m
    case Arrive =>
      if f.arrived < |stream| then f.(queue := Accept(f.queue, stream[f.arrived], capacity), arrived := f.arrived + 1)
      else f
    case Take =>
      if f.queue != [] then f.(queue := f.queue[1..], taken := f.taken + [f.queue[0]]) else f
  }

  function Exec(stream: seq<byte>, moves: seq<Move>, capacity: nat): Flow {
    if moves == [] then Flow([], 0, [])
    else Do(stream, Exec(stream, moves[..|moves| - 1], capacity), moves[|moves| - 1], capacity)
  }

  /** Whenever a byte arrives, the host is less than a buffer ahead of the firmware. */
  predicate KeepsUp(stream: seq<byte>, moves: seq<Move>, capacity: nat) {
    moves != [] ==>
      var before := moves[..|moves| - 1];
      var f := Exec(stream, before, capacity);
      && KeepsUp(stream, before, capacity)
      && (moves[|moves| - 1].Arrive? && f.arrived < |stream| ==> f.arrived - |f.taken| < capacity)
  }

  /** What the firmware has read and what waits are the bytes that arrived. */
  predicate InStep(stream: seq<byte>, f: Flow) {
    f.arrived <= |stream| && f.taken + f.queue == stream[..f.arrived]
  }

  lemma StepInStep(stream: seq<byte>, f: Flow, m: Move, capacity: nat)
    requires f.arrived <= |stream| && |f.taken| + |f.queue| <= f.arrived && |f.queue| <= capacity
    ensures var g := Do(stream, f, m, capacity);
            && g.arrived <= |stream| && |g.taken| + |g.queue| <= g.arrived && |g.queue| <= capacity
            && (InStep(stream, g) <==>
                InStep(stream, f) && !(m.Arrive? && f.arrived < |stream| && f.arrived - |f.taken| >= capacity))
  {
    var g := Do(stream, f, m, capacity);
    if m.Take? && f.queue != [] {
      assert g.taken + g.queue == f.taken + f.queue;
    } else if m.Arrive? && f.arrived < |stream| {
      var b := stream[f.arrived];
      assert stream[..f.arrived + 1] == stream[..f.arrived] + [b];
      if |f.queue| < capacity {
        assert g.taken + g.queue == f.taken + f.queue + [b];
        if g.taken + g.queue == stream[..g.arrived] {
          assert f.taken + f.queue == (g.taken + g.queue)[..f.arrived];
        }
      } else if InStep(stream, f) {
        assert |f.taken + f.queue| == f.arrived;
      }
    }
  }

  lemma {:induction false} FlowBounds(stream: seq<byte>, moves: seq<Move>, capacity: nat)
    ensures var f := Exec(stream, moves, capacity);
            f.arrived <= |stream| && |f.taken| + |f.queue| <= f.arrived && |f.queue| <= capacity
  {
    if moves != [] {
      var before := moves[..|moves| - 1];
      FlowBounds(stream, before, capacity);
      StepInStep(stream, Exec(stream, before, capacity), moves[|moves| - 1], capacity);
    }
  }

  /** The firmware reads exactly what the host has written if and only if the host lets it keep up. */
  lemma {:induction false} InStepExactly(stream: seq<byte>, moves: seq<Move>, capacity: nat)
    ensures InStep(stream, Exec(stream, moves, capacity)) <==> KeepsUp(stream, moves, capacity)
  {
    if moves != [] {
      var before := moves[..|moves| - 1];
      InStepExactly(stream, before, capacity);
      FlowBounds(stream, before, capacity);
      StepInStep(stream, Exec(stream, before, capacity), moves[|moves| - 1], capacity);
    }
  }

  /** A stream no longer than the buffer cannot overrun it. */
  lemma {:induction false} ShortStreamsKeepUp(stream: seq<byte>, moves: seq<Move>, capacity: nat)
    requires |stream| <= capacity
    ensures KeepsUp(stream, moves, capacity)
  {
    if moves != [] {
      ShortStreamsKeepUp(stream, moves[..|moves| - 1], capacity);
    }
  }

  /** For a longer one there is a schedule that does: everything arrives before anything is taken. */
  lemma {:induction false} LongStreamsCanOverrun(stream: seq<byte>, capacity: nat, n: nat) returns (moves: seq<Move>)
    requires n <= |stream|
    ensures Exec(stream, moves, capacity).arrived == n && Exec(stream, moves, capacity).taken == []
    ensures n > capacity ==> !KeepsUp(stream, moves, capacity)
  {
    moves := [];
    if n > 0 {
      var before := LongStreamsCanOverrun(stream, capacity, n - 1);
      moves := before + [Arrive];
      assert moves[..|moves| - 1] == before;
    }
  }

  /** Once nothing more arrives the firmware takes what waits, byte for byte. */
  lemma {:induction false} TakesAll(stream: seq<byte>, moves: seq<Move>, capacity: nat) returns (rest: seq<Move>)
    ensures var f, g := Exec(stream, moves, capacity), Exec(stream, moves + rest, capacity);
            && |rest| == |f.queue| && (forall k :: 0 <= k < |rest| ==> rest[k] == Take)
            && g.queue == [] && g.taken == f.taken + f.queue && g.arrived == f.arrived
    decreases |Exec(stream, moves, capacity).queue|
  {
    var f := Exec(stream, moves, capacity);
    if f.queue == [] {
      rest := [];
      assert moves + rest == moves;
    } else {
      assert (moves + [Take])[..|moves|] == moves;
      var more := TakesAll(stream, moves + [Take], capacity);
      rest := [Take] + more;
      assert moves + rest == moves + [Take] + more;
    }
  }

  /** ... and has then read everything that arrived, if and only if the host has let it keep up. */
  lemma CatchesUp(stream: seq<byte>, moves: seq<Move>, capacity: nat) returns (rest: seq<Move>)
    ensures var g := Exec(stream, moves + rest, capacity);
            g.arrived <= |stream| && (g.taken == stream[..g.arrived] <==> KeepsUp(stream, moves, capacity))
  {
    rest := TakesAll(stream, moves, capacity);
    InStepExactly(stream, moves, capacity);
    FlowBounds(stream, moves, capacity);
  }
}
