/**
  The serial transport: driver/serial.c on the host, driver/servant64/xlink.c in the adapter,
  and the two byte streams between them.

  The firmware is deterministic in what it reads, so it is enough to let it work through
  what the host has written before the host reads the reply.  The receive buffer is
  assumed not to overflow.  A flush after a send time-out drops what has arrived by then.
  What the firmware does to the port is done on the pins of module Pins.
 */
module Serial {
  import opened Bytes
  import Pins

  const CMD_RESET: byte := 0x01
  const CMD_STROBE: byte := 0x02
  const CMD_ACKED: byte := 0x03
  const CMD_INPUT: byte := 0x04
  const CMD_OUTPUT: byte := 0x05
  const CMD_READ: byte := 0x06
  const CMD_WRITE: byte := 0x07
  const CMD_SEND: byte := 0x08
  const CMD_RECEIVE: byte := 0x09

  const ACKED: byte := 0x55
  const NOT_ACKED: byte := 0xaa

  type uint32 = n: int | 0 <= n < 0x1_0000_0000

  // ---- 32-bit arguments ------------------------------------------------------------------------

  function Byte(n: uint32, k: nat): byte
    requires k < 4
  {
    match k
    case 0 => n % 0x100
    case 1 => n / 0x100 % 0x100
    case 2 => n / 0x1_0000 % 0x100
    case _ => n / 0x100_0000
  }

  /** `lo`, `hi`, `hlo` and `hhi` of util.h. */
  function Encode32(n: uint32): (bytes: seq<byte>)
    ensures |bytes| == 4
  {
    [Byte(n, 0), Byte(n, 1), Byte(n, 2), Byte(n, 3)]
  }

  function Decode32(bytes: seq<byte>): uint32
    requires |bytes| == 4
  {
    var b0: int, b1: int, b2: int, b3: int := bytes[0], bytes[1], bytes[2], bytes[3];
    b0 + b1 * 0x100 + b2 * 0x1_0000 + b3 * 0x100_0000
  }

  lemma Encode32Decodes(n: uint32)
    ensures Decode32(Encode32(n)) == n
  {
    var h := n / 0x1_0000;
    assert n == h * 0x1_0000 + n % 0x1_0000;
    assert n / 0x100_0000 == h / 0x100;
    assert n / 0x100 % 0x100 == n % 0x1_0000 / 0x100;
  }

  // ---- host: driver/serial.c ---------------------------------------------------------------------

  /** `cmd`: the nine bytes of a command frame. */
  function Frame(command: byte, arg1: uint32, arg2: uint32): (bytes: seq<byte>)
    ensures |bytes| == 9
  {
    [command] + Encode32(arg1) + Encode32(arg2)
  }

  const TIMEOUT: uint32 := 2

  datatype Op =
    | Reset | Strobe | Acked | Input | Output | ReadPort | WritePort(value: byte)
    | Send(data: seq<byte>) | Receive(size: uint32)

  /** A command with its arguments and what follows it. */
  datatype Request = Request(command: byte, arg1: uint32, arg2: uint32, payload: seq<byte>)

  predicate Fits(op: Op) {
    op.Send? ==> |op.data| < 0x1_0000_0000
  }

  function Requested(op: Op): Request
    requires Fits(op)
  {
    match op
    case Reset => Request(CMD_RESET, 0, 0, [])
    case Strobe => Request(CMD_STROBE, 0, 0, [])
    case Acked => Request(CMD_ACKED, 0, 0, [])
    case Input => Request(CMD_INPUT, 0, 0, [])
    case Output => Request(CMD_OUTPUT, 0, 0, [])
    case ReadPort => Request(CMD_READ, 0, 0, [])
    case WritePort(v) => Request(CMD_WRITE, v, 0, [])
    case Send(data) => Request(CMD_SEND, |data|, TIMEOUT, data)
    case Receive(size) => Request(CMD_RECEIVE, size, TIMEOUT, [])
  }

  predicate WellFormed(r: Request) {
    if r.command == CMD_SEND then |r.payload| == r.arg1 else r.payload == []
  }

  /** All that the host writes for one request. */
  function Written(r: Request): seq<byte> {
    Frame(r.command, r.arg1, r.arg2) + r.payload
  }

  function WrittenAll(rs: seq<Request>): seq<byte> {
    if rs == [] then [] else Written(rs[0]) + WrittenAll(rs[1..])
  }

  /** How many bytes the host then waits for. */
  function Expected(op: Op): nat {
    match op
    case Acked => 1
    case ReadPort => 1
    case Send(_) => 4
    case Receive(size) => size + 4
    case _ => 0
  }

  /** The nine bytes: the command, then each argument with its low byte first. */
  lemma FrameBytes(command: byte, arg1: uint32, arg2: uint32)
    ensures var frame := Frame(command, arg1, arg2);
            |frame| == 9 && frame[0] == command && Counts(frame[1..5], arg1) && Counts(frame[5..9], arg2)
  {
    var frame := Frame(command, arg1, arg2);
    assert frame[1..5] == Encode32(arg1) && frame[5..9] == Encode32(arg2);
    Encode32Decodes(arg1);
    Encode32Decodes(arg2);
  }

  // ---- the frame decoder, as a function of the stream ----------------------------------------------

  /** The first request of a stream, as the firmware's main loop and `Send` read it. */
  function First(stream: seq<byte>): Request
    requires |stream| >= 9
    requires stream[0] == CMD_SEND ==> |stream| - 9 >= Decode32(stream[1..5])
  {
    var arg1 := Decode32(stream[1..5]);
    Request(stream[0], arg1, Decode32(stream[5..9]), if stream[0] == CMD_SEND then stream[9..9 + arg1] else [])
  }

  lemma FirstOfWritten(r: Request, rest: seq<byte>)
    requires WellFormed(r)
    ensures var stream := Written(r) + rest;
            && stream[0] == r.command && stream[1..5] == Encode32(r.arg1)
            && Decode32(stream[1..5]) == r.arg1 && Decode32(stream[5..9]) == r.arg2
            && stream[9..9 + |r.payload|] == r.payload && stream[9 + |r.payload|..] == rest
            && First(stream) == r
  {
    var stream := Written(r) + rest;
    assert stream == [r.command] + Encode32(r.arg1) + Encode32(r.arg2) + r.payload + rest;
    assert stream[1..5] == Encode32(r.arg1) && stream[5..9] == Encode32(r.arg2);
    Encode32Decodes(r.arg1);
    Encode32Decodes(r.arg2);
  }

  /** Different sequences of requests are different byte streams. */
  lemma {:induction false} StreamsDecodeUniquely(a: seq<Request>, b: seq<Request>)
    requires (forall r :: r in a ==> WellFormed(r)) && (forall r :: r in b ==> WellFormed(r))
    requires WrittenAll(a) == WrittenAll(b)
    ensures a == b
  {
    if a != [] && b != [] {
      FirstOfWritten(a[0], WrittenAll(a[1..]));
      FirstOfWritten(b[0], WrittenAll(b[1..]));
      StreamsDecodeUniquely(a[1..], b[1..]);
    }
  }

  // ---- adapter: driver/servant64/xlink.c -----------------------------------------------------------

  /**
    What the port does during one command: whether an acknowledge is pending, the bytes read,
    and for each byte of a transfer whether its acknowledge comes in time.  `arrived` is how
    much of the stream has come in when a send time-out flushes the buffer.
   */
  datatype Port = Port(acked: bool, sample: nat -> byte, inTime: nat -> bool, arrived: nat)

  /** Index of the first byte from `from` on that times out, or `n`. */
  function FirstLate(port: Port, n: nat, from: nat): (k: nat)
    requires from <= n
    ensures from <= k <= n
    ensures forall i :: from <= i < k ==> port.inTime(i)
    ensures k < n ==> !port.inTime(k)
    decreases n - from
  {
    if from == n || !port.inTime(from) then from else FirstLate(port, n, from + 1)
  }

  /** Time-outs are counted only when the command asks for one. */
  function Late(port: Port, n: nat, timeout: nat): (k: nat)
    ensures k <= n
  {
    if timeout == 0 then n else FirstLate(port, n, 0)
  }

  /** The count that `Send` and `Receive` report: one more than the index of the late byte. */
  function Reported(port: Port, n: uint32, timeout: nat): (count: uint32)
    ensures count <= n
  {
    if Late(port, n, timeout) < n then Late(port, n, timeout) + 1 else n
  }

  /** `n` bytes of which the first `k` were read in time. */
  function Samples(port: Port, n: nat, k: nat): (bytes: seq<byte>)
    requires k <= n
    ensures |bytes| == n
  {
    seq(n, i requires 0 <= i < n => SampleOrFill(port, i, k))
  }

  function SampleOrFill(port: Port, i: nat, k: nat): byte {
    if i < k then port.sample(i) else 0xff
  }

  function Reply(port: Port, r: Request): seq<byte> {
    if r.command == CMD_ACKED then [if port.acked then ACKED else NOT_ACKED]
    else if r.command == CMD_READ then [port.sample(0)]
    else if r.command == CMD_SEND then Encode32(Reported(port, r.arg1, r.arg2))
    else if r.command == CMD_RECEIVE then
      Samples(port, r.arg1, Late(port, r.arg1, r.arg2)) + Encode32(Reported(port, r.arg1, r.arg2))
    else []
  }

  // ---- what an operation is for --------------------------------------------------------------------

  /** The bytes as they are put on the lines. */
  function OnLines(bytes: seq<byte>): (lines: seq<bv8>)
    ensures |lines| == |bytes| && forall k :: 0 <= k < |bytes| ==> lines[k] == bytes[k] as bv8
  {
    seq(|bytes|, k requires 0 <= k < |bytes| => bytes[k] as bv8)
  }

  lemma OnLinesMore(bytes: seq<byte>, b: byte)
    ensures OnLines(bytes + [b]) == OnLines(bytes) + [b as bv8]
  {
  }

  /** The same lines `n` times. */
  function Same(lines: bv8, n: nat): (s: seq<bv8>)
    ensures |s| == n && forall k :: 0 <= k < n ==> s[k] == lines
  {
    seq(n, _ => lines)
  }

  lemma SameMore(lines: bv8, n: nat)
    ensures Same(lines, n) + [lines] == Same(lines, n + 1)
  {
  }

  /** A count of four bytes, low byte first. */
  predicate Counts(bytes: seq<byte>, n: nat) {
    && |bytes| == 4
    && var b0: int, b1: int, b2: int, b3: int := bytes[0], bytes[1], bytes[2], bytes[3];
       n == b0 + 0x100 * b1 + 0x1_0000 * b2 + 0x100_0000 * b3
  }

  /** What goes out of a transfer of `n` bytes: up to the first that is late, and that one. */
  function PutOut(port: Port, n: nat): (k: nat)
    ensures k <= n
  {
    var late := FirstLate(port, n, 0);
    if late < n then late + 1 else n
  }

  /** Neither strobe nor RESET. */
  predicate Quiet(a: Pins.Wires, z: Pins.Wires) {
    z.falls == a.falls && z.resets == a.resets
  }

  /**
    What the host asks the adapter for, in terms of the pins before and after, the data lines at each
    strobe, and the reply.
   */
  predicate Did(op: Op, port: Port, a: Pins.Wires, z: Pins.Wires, reply: seq<byte>) {
    match op
    case Reset => z == a.(resets := a.resets + 1) && reply == []
    case Strobe => z == a.(falls := a.falls + [Pins.OnLines(a.pins)]) && reply == []
    case Acked => z == a && reply == [if port.acked then 0x55 else 0xaa]
    case Input =>
      && Pins.AllInputs(z.pins) && Pins.OnLines(z.pins) == 0xff && Pins.Others(z.pins) == Pins.Others(a.pins)
      && Quiet(a, z) && reply == []
    case Output =>
      && Pins.AllOutputs(z.pins) && Pins.OnLines(z.pins) == Pins.OnLines(a.pins)
      && Pins.Others(z.pins) == Pins.Others(a.pins) && Quiet(a, z) && reply == []
    case ReadPort => z == a && reply == [port.sample(0)]
    case WritePort(v) =>
      Pins.OnLines(z.pins) == v as bv8 && Pins.Steady(a.pins, z.pins) && Quiet(a, z) && reply == []
    case Send(data) =>
      && Pins.Steady(a.pins, z.pins) && z.resets == a.resets
      && z.falls == a.falls + OnLines(data[..PutOut(port, |data|)])
      && Counts(reply, PutOut(port, |data|))
    case Receive(size) =>
      var late := FirstLate(port, size, 0);
      && z == a.(falls := a.falls + Same(Pins.OnLines(a.pins), late))
      && |reply| == size + 4 && (forall k :: 0 <= k < size ==> reply[k] == if k < late then port.sample(k) else 0xff)
      && Counts(reply[size..], PutOut(port, size))
  }

  /** What the `switch` of the firmware does, `payload` being what a send has put out. */
  predicate Switched(command: byte, size: uint32, timeout: uint32, payload: seq<byte>, port: Port,
                     a: Pins.Wires, z: Pins.Wires)
  {
    match command
    case 0x01 => Pins.Effect(Pins.DoReset, a, z)
    case 0x02 => Pins.Effect(Pins.DoStrobe, a, z)
    case 0x04 => Pins.Effect(Pins.DoInput, a, z)
    case 0x05 => Pins.Effect(Pins.DoOutput, a, z)
    case 0x07 => Pins.Effect(Pins.DoWrite(Lo(size) as bv8), a, z)
    case 0x08 =>
      Pins.Steady(a.pins, z.pins) && z.resets == a.resets && z.falls == a.falls + OnLines(payload)
    case 0x09 => z == a.(falls := a.falls + Same(Pins.OnLines(a.pins), Late(port, size, timeout)))
    case _ => z == a
  }

  /** What the firmware does for a request that it has read. */
  predicate Acts(r: Request, port: Port, a: Pins.Wires, z: Pins.Wires)
    requires WellFormed(r)
  {
    Switched(r.command, r.arg1, r.arg2, Executed(r, port).payload, port, a, z)
  }

  /** The requests of the host get done what its operations are for. */
  lemma RequestDoes(op: Op, port: Port, a: Pins.Wires, z: Pins.Wires)
    requires Fits(op) && Acts(Requested(op), port, a, z)
    ensures Did(op, port, a, z, Reply(port, Requested(op))) && |Reply(port, Requested(op))| == Expected(op)
  {
    match op
    case Send(data) => SendDoes(data, port, a, z);
    case Receive(size) => ReceiveDoes(size, port, a, z);
    case _ =>
  }

  lemma SendDoes(data: seq<byte>, port: Port, a: Pins.Wires, z: Pins.Wires)
    requires |data| < 0x1_0000_0000 && Acts(Requested(Op.Send(data)), port, a, z)
    ensures Did(Op.Send(data), port, a, z, Reply(port, Requested(Op.Send(data))))
  {
    Encode32Decodes(Reported(port, |data|, TIMEOUT));
  }

  lemma ReceiveDoes(size: uint32, port: Port, a: Pins.Wires, z: Pins.Wires)
    requires Acts(Requested(Op.Receive(size)), port, a, z)
    ensures Did(Op.Receive(size), port, a, z, Reply(port, Requested(Op.Receive(size))))
  {
    Encode32Decodes(Reported(port, size, TIMEOUT));
  }

  /** Both ends of the line. */
  class Line {
    const adapter: Pins.Adapter
    var rx: seq<byte>  // on the way to the adapter
    var tx: seq<byte>  // on the way to the host
    var served: seq<Request>  // what the adapter has executed; the payload is what went on the port

    /** The adapter's registers hold whatever they hold when it is switched on. */
    constructor (ddrb: bv8, portb: bv8, ddrc: bv8, portc: bv8, ddrd: bv8, portd: bv8)
      ensures rx == tx == [] && served == [] && fresh(adapter) && InOrder() && Pins.AllInputs(adapter.Registers())
    {
      adapter := new Pins.Adapter(ddrb, portb, ddrc, portc, ddrd, portd);
      rx, tx, served := [], [], [];
    }

    predicate InOrder()
      reads this, adapter
    {
      Pins.Safe(adapter.Registers())
    }

    // ---- adapter ----

    method ReadSerial() returns (b: byte)
      requires rx != []
      modifies this`rx
      ensures b == old(rx)[0] && rx == old(rx)[1..]
    {
      b := rx[0];
      rx := rx[1..];
    }

    method WriteSerial(b: int)
      modifies this`tx
      ensures tx == old(tx) + [Lo(b)]
    {
      tx := tx + [Lo(b)];
    }

    /** Four bytes, low byte first. */
    method ReadWord() returns (n: uint32)
      requires |rx| >= 4
      modifies this`rx
      ensures n == Decode32(old(rx)[..4]) && rx == old(rx)[4..]
    {
      var b0 := ReadSerial();
      var b1 := ReadSerial();
      var b2 := ReadSerial();
      var b3 := ReadSerial();
      n := Decode32([b0, b1, b2, b3]);
    }

    method WriteWord(n: uint32)
      modifies this`tx
      ensures tx == old(tx) + Encode32(n)
    {
      WriteSerial(n);
      WriteSerial(n / 0x100);
      WriteSerial(n / 0x1_0000);
      WriteSerial(n / 0x100_0000);
    }

    /** A byte goes on the lines, and the strobe falls. */
    method PutByte(b: byte)
      requires InOrder()
      modifies adapter
      ensures InOrder() && Pins.Steady(old(adapter.Registers()), adapter.Registers())
      ensures adapter.falls == old(adapter.falls) + [b as bv8] && adapter.resets == old(adapter.resets)
    {
      adapter.Execute(Pins.DoWrite(b as bv8));
      adapter.Execute(Pins.DoStrobe);
    }

    /** `Send` of the firmware; `payload` is what goes on the port. */
    method AdapterSend(n: uint32, timeout: uint32, port: Port) returns (payload: seq<byte>)
      requires |rx| >= n && InOrder()
      modifies this`rx, this`tx, adapter
      ensures payload == old(rx)[..Reported(port, n, timeout)] && tx == old(tx) + Encode32(Reported(port, n, timeout))
      ensures rx == if Late(port, n, timeout) == n then old(rx)[n..]
                    else Flushed(old(rx)[Reported(port, n, timeout)..], port.arrived)
      ensures InOrder() && Pins.Steady(old(adapter.Registers()), adapter.Registers())
      ensures adapter.falls == old(adapter.falls) + OnLines(payload) && adapter.resets == old(adapter.resets)
    {
      payload := [];
      for i := 0 to n
        invariant rx == old(rx)[i..] && payload == old(rx)[..i] && tx == old(tx)
        invariant timeout > 0 ==> forall k :: 0 <= k < i ==> port.inTime(k)
        invariant InOrder() && Pins.Steady(old(adapter.Registers()), adapter.Registers())
        invariant adapter.falls == old(adapter.falls) + OnLines(payload) && adapter.resets == old(adapter.resets)
      {
        var b := ReadSerial();
        OnLinesMore(payload, b);
        payload := payload + [b];
        PutByte(b);
        if timeout > 0 && !port.inTime(i) {
          LateIs(port, n, timeout, i);
          rx := Flushed(rx, port.arrived);
          WriteWord(i + 1);
          return;
        }
      }
      LateIs(port, n, timeout, n);
      WriteWord(n);
    }

    /** `Receive` of the firmware: whatever happens, it answers with the bytes asked for and a count. */
    method AdapterReceive(n: uint32, timeout: uint32, port: Port)
      requires InOrder()
      modifies this`tx, adapter
      ensures tx == old(tx) + Samples(port, n, Late(port, n, timeout)) + Encode32(Reported(port, n, timeout))
      ensures InOrder() && adapter.Registers() == old(adapter.Registers()) && adapter.resets == old(adapter.resets)
      ensures adapter.falls
           == old(adapter.falls) + Same(Pins.OnLines(adapter.Registers()), Late(port, n, timeout))
    {
      ghost var all := Samples(port, n, Late(port, n, timeout));
      ghost var lines := Pins.OnLines(adapter.Registers());
      for i := 0 to n
        invariant tx == old(tx) + all[..i] && i <= Late(port, n, timeout)
        invariant timeout > 0 ==> forall k :: 0 <= k < i ==> port.inTime(k)
        invariant InOrder() && adapter.Registers() == old(adapter.Registers())
        invariant adapter.falls == old(adapter.falls) + Same(lines, i) && adapter.resets == old(adapter.resets)
      {
        if timeout > 0 && !port.inTime(i) {
          LateIs(port, n, timeout, i);
          assert all == all[..i] + seq(n - i, _ => 0xff);
          GiveUp(n, i);
          return;
        }
        LateBehind(port, n, timeout, i);
        TakeByte(port.sample(i));
        SameMore(lines, i);
      }
      LateIs(port, n, timeout, n);
      assert all[..n] == all;
      WriteWord(n);
    }

    /** A byte from the lines is passed on, and the strobe asks for the next. */
    method TakeByte(b: byte)
      requires InOrder()
      modifies this`tx, adapter
      ensures tx == old(tx) + [b] && InOrder()
      ensures adapter.Registers() == old(adapter.Registers()) && adapter.resets == old(adapter.resets)
      ensures adapter.falls == old(adapter.falls) + [Pins.OnLines(adapter.Registers())]
    {
      WriteSerial(b);
      adapter.Execute(Pins.DoStrobe);
    }

    /** A time-out at byte `i`: the rest of the reply is filled up. */
    method GiveUp(n: uint32, i: nat)
      requires i < n
      modifies this`tx
      ensures tx == old(tx) + seq(n - i, _ => 0xff) + Encode32(i + 1)
    {
      Fill(n - i);
      WriteWord(i + 1);
    }

    method Fill(n: nat)
      modifies this`tx
      ensures tx == old(tx) + seq(n, _ => 0xff)
    {
      for k := 0 to n
        invariant tx == old(tx) + seq(k, _ => 0xff)
      {
        WriteSerial(0xff);
        assert seq(k, _ => 0xff) + [0xff] == seq(k + 1, _ => 0xff);
      }
    }

    /** The nine bytes that the main loop reads first. */
    method ReadFrame(ghost r: Request, ghost rest: seq<byte>)
        returns (command: byte, size: uint32, timeout: uint32)
      requires WellFormed(r) && rx == Written(r) + rest
      modifies this`rx
      ensures command == r.command && size == r.arg1 && timeout == r.arg2 && rx == r.payload + rest
    {
      ghost var stream := rx;
      FirstOfWritten(r, rest);
      command := ReadSerial();
      assert rx[..4] == stream[1..5];
      size := ReadWord();
      assert rx[..4] == stream[5..9];
      timeout := ReadWord();
    }

    /** One round of the firmware's main loop, once the host has written request `r`. */
    method Serve(ghost r: Request, port: Port)
      requires WellFormed(r) && Written(r) <= rx && InOrder()
      modifies this, adapter
      ensures served == old(served) + [Executed(r, port)]
      ensures tx == old(tx) + Reply(port, r)
      ensures rx == Left(r, port, old(rx)[|Written(r)|..])
      ensures InOrder() && Acts(r, port, old(adapter.View()), adapter.View())
    {
      ghost var rest := rx[|Written(r)|..];
      var command, size, timeout := ReadFrame(r, rest);
      var payload := Switch(command, size, timeout, port);
      assert Request(command, size, timeout, payload) == Executed(r, port) by {
        if command == CMD_SEND {
          assert (r.payload + rest)[..Reported(port, size, timeout)] == r.payload[..Reported(port, size, timeout)];
        }
      }
      served := served + [Request(command, size, timeout, payload)];
    }

    /** The `switch` of the main loop; `byte` is the low byte of the first argument. */
    method Switch(command: byte, size: uint32, timeout: uint32, port: Port) returns (payload: seq<byte>)
      requires InOrder() && (command == CMD_SEND ==> |rx| >= size)
      modifies this`rx, this`tx, adapter
      ensures InOrder()
      ensures payload == if command == CMD_SEND then old(rx)[..Reported(port, size, timeout)] else []
      ensures rx == if command != CMD_SEND then old(rx)
                    else if Late(port, size, timeout) == size then old(rx)[size..]
                    else Flushed(old(rx)[Reported(port, size, timeout)..], port.arrived)
      ensures tx == old(tx) + Reply(port, Request(command, size, timeout, []))
      ensures Switched(command, size, timeout, payload, port, old(adapter.View()), adapter.View())
    {
      payload := [];
      if command == CMD_RESET {
        adapter.Execute(Pins.DoReset);
      } else if command == CMD_STROBE {
        adapter.Execute(Pins.DoStrobe);
      } else if command == CMD_ACKED {
        WriteSerial(if port.acked then ACKED else NOT_ACKED);
      } else if command == CMD_INPUT {
        adapter.Execute(Pins.DoInput);
      } else if command == CMD_OUTPUT {
        adapter.Execute(Pins.DoOutput);
      } else if command == CMD_READ {
        WriteSerial(port.sample(0));
      } else if command == CMD_WRITE {
        adapter.Execute(Pins.DoWrite(Lo(size) as bv8));
      } else if command == CMD_SEND {
        payload := AdapterSend(size, timeout, port);
      } else if command == CMD_RECEIVE {
        AdapterReceive(size, timeout, port);
      }
    }

    // ---- host ----

    /** serial_write: `chunked` into writes of 16 bytes. */
    method HostWrite(data: seq<byte>)
      modifies this`rx
      ensures rx == old(rx) + data
    {
      var size: nat, chunk: nat, at: nat := |data|, 16, 0;
      var more := true;
      while more
        invariant at + size == |data| && rx == old(rx) + data[..at]
        invariant if more then chunk == 16 else size == 0
        decreases more, size
      {
        if size > chunk {
          size := size - chunk;
        } else {
          chunk := size;
          size := 0;
        }
        rx := rx + data[at..at + chunk];
        at := at + chunk;
        more := size > 0;
      }
      assert data[..at] == data;
    }

    method HostRead(n: nat) returns (data: seq<byte>)
      requires |tx| >= n
      modifies this`tx
      ensures data == old(tx)[..n] && tx == old(tx)[n..]
    {
      data := tx[..n];
      tx := tx[n..];
    }

    /** An operation up to the point where the host has its reply. */
    method Perform(op: Op, port: Port) returns (reply: seq<byte>)
      requires Fits(op) && rx == tx == [] && InOrder()
      modifies this, adapter
      ensures reply == Reply(port, Requested(op)) && |reply| == Expected(op) && tx == []
      ensures served == old(served) + [Executed(Requested(op), port)]
      ensures rx == Left(Requested(op), port, [])
      ensures InOrder() && Did(op, port, old(adapter.View()), adapter.View(), reply)
    {
      ghost var r, before := Requested(op), adapter.View();
      HostRequest(op);
      assert rx[|Written(r)|..] == [];
      Serve(r, port);
      RequestDoes(op, port, before, adapter.View());
      reply := HostRead(Expected(op));
    }

    /** The host's half: the frame and, for a send, the data. */
    method HostRequest(op: Op)
      requires Fits(op) && rx == []
      modifies this`rx
      ensures rx == Written(Requested(op))
    {
      var r := Requested(op);
      HostWrite(Frame(r.command, r.arg1, r.arg2));
      if op.Send? {
        HostWrite(r.payload);
      }
    }

    /** driver_serial_send. */
    method DriverSend(data: seq<byte>, port: Port) returns (result: bool)
      requires |data| < 0x1_0000_0000 && rx == tx == [] && InOrder()
      modifies this, adapter
      ensures InOrder() && adapter.falls == old(adapter.falls) + OnLines(data[..PutOut(port, |data|)])
      ensures var late := FirstLate(port, |data|, 0); result <==> late + 1 >= |data|
      ensures tx == [] && rx == Left(Requested(Op.Send(data)), port, [])
    {
      var reply := Perform(Op.Send(data), port);
      Encode32Decodes(Reported(port, |data|, TIMEOUT));
      result := Decode32(reply) == |data|;
    }

    /** driver_serial_receive. */
    method DriverReceive(size: uint32, port: Port) returns (result: bool, data: seq<byte>)
      requires rx == tx == [] && InOrder()
      modifies this, adapter
      ensures rx == tx == [] && InOrder() && adapter.Registers() == old(adapter.Registers())
      ensures |adapter.falls| == |old(adapter.falls)| + FirstLate(port, size, 0)
      ensures var late := FirstLate(port, size, 0);
              (result <==> late + 1 >= size) && data == Samples(port, size, late)
    {
      var reply := Perform(Op.Receive(size), port);
      data := reply[..size];
      Encode32Decodes(Reported(port, size, TIMEOUT));
      result := Decode32(reply[size..]) == size;
    }

    /**
      Any run of operations none of which leaves anything on the line: the two sides never get
      out of step, and every operation gets its own reply.
     */
    method Run(ops: seq<Op>, ports: seq<Port>) returns (replies: seq<seq<byte>>, ghost wires: seq<Pins.Wires>)
      requires |ops| == |ports| && rx == tx == [] && InOrder()
      requires forall i :: 0 <= i < |ops| ==> LeavesNothing(ops[i], ports[i])
      modifies this, adapter
      ensures rx == tx == [] && InOrder()
      ensures |replies| == |ops| && |served| == |old(served)| + |ops|
      ensures forall i :: 0 <= i < |ops| ==> Done(ops[i], ports[i], replies[i], served[|old(served)| + i])
      ensures |wires| == |ops| + 1 && wires[0] == old(adapter.View()) && wires[|ops|] == adapter.View()
      ensures forall i :: 0 <= i < |ops| ==> Did(ops[i], ports[i], wires[i], wires[i + 1], replies[i])
    {
      replies, wires := [], [adapter.View()];
      for i := 0 to |ops|
        invariant rx == tx == [] && InOrder() && |served| == |old(served)| + i && |replies| == i
        invariant forall k :: 0 <= k < i ==> Done(ops[k], ports[k], replies[k], served[|old(served)| + k])
        invariant |wires| == i + 1 && wires[0] == old(adapter.View()) && wires[i] == adapter.View()
        invariant forall k :: 0 <= k < i ==> Did(ops[k], ports[k], wires[k], wires[k + 1], replies[k])
      {
        var reply := Perform(ops[i], ports[i]);
        replies, wires := replies + [reply], wires + [adapter.View()];
        assert Done(ops[i], ports[i], replies[i], served[|old(served)| + i]);
      }
    }
  }

  predicate LeavesNothing(op: Op, port: Port) {
    Fits(op) && Left(Requested(op), port, []) == []
  }

  /** What the host gets for an operation, and what the firmware has done for it. */
  predicate Done(op: Op, port: Port, reply: seq<byte>, executed: Request) {
    Fits(op) && reply == Reply(port, Requested(op)) && executed == Executed(Requested(op), port)
  }

  /** Without a send time-out an operation is executed as encoded, and nothing is left. */
  lemma OnTimeInStep(op: Op, port: Port)
    requires Fits(op) && !SendTimesOut(op, port)
    ensures LeavesNothing(op, port) && Executed(Requested(op), port) == Requested(op)
  {
    if op.Send? {
      assert op.data[..|op.data|] == op.data;
    }
  }

  /** uart_flush, when `arrived` bytes are in the buffer. */
  function Flushed(stream: seq<byte>, arrived: nat): seq<byte> {
    if arrived <= |stream| then stream[arrived..] else []
  }

  predicate SendTimesOut(op: Op, port: Port) {
    op.Send? && |op.data| < 0x1_0000_0000 && Late(port, |op.data|, TIMEOUT) < |op.data|
  }

  /** What the firmware has done for a request: a late send puts out a part of the payload. */
  function Executed(r: Request, port: Port): Request
    requires WellFormed(r)
  {
    if r.command == CMD_SEND then r.(payload := r.payload[..Reported(port, r.arg1, r.arg2)]) else r
  }

  /** What is left of the stream behind a request. */
  function Left(r: Request, port: Port, rest: seq<byte>): seq<byte>
    requires WellFormed(r)
  {
    if r.command == CMD_SEND && Late(port, r.arg1, r.arg2) < r.arg1
    then Flushed(r.payload[Reported(port, r.arg1, r.arg2)..] + rest, port.arrived)
    else rest
  }

  lemma LateIs(port: Port, n: nat, timeout: nat, k: nat)
    requires k <= n && (k < n ==> timeout > 0 && !port.inTime(k))
    requires timeout > 0 ==> forall i :: 0 <= i < k ==> port.inTime(i)
    ensures Late(port, n, timeout) == k
  {
  }

  lemma LateBehind(port: Port, n: nat, timeout: nat, i: nat)
    requires i < n && (timeout > 0 ==> forall k :: 0 <= k <= i ==> port.inTime(k))
    ensures i < Late(port, n, timeout)
  {
  }

  /** The firmware reads request `r` at the front of the stream. */
  predicate DecodesAs(stream: seq<byte>, r: Request) {
    && |stream| >= 9
    && (stream[0] == CMD_SEND ==> |stream| - 9 >= Decode32(stream[1..5]))
    && First(stream) == r
  }

  /** Whatever the host asks for next, behind `rest` the firmware reads just that. */
  ghost predicate NextIsRead(rest: seq<byte>) {
    forall r: Request :: WellFormed(r) ==> DecodesAs(rest + Written(r), r)
  }

  lemma NextIsReadIff(rest: seq<byte>)
    ensures NextIsRead(rest) <==> rest == []
  {
    if rest == [] {
      forall r: Request | WellFormed(r) ensures DecodesAs(rest + Written(r), r) {
        FirstOfWritten(r, []);
        assert rest + Written(r) == Written(r) + [];
      }
    } else {
      var other := Request(if rest[0] == CMD_RESET then CMD_STROBE else CMD_RESET, 0, 0, []);
      assert (rest + Written(other))[0] == rest[0];
      assert !DecodesAs(rest + Written(other), other);
    }
  }

  /**
    After a send time-out the firmware reads every next request as it was written exactly when the
    flush came late enough: when everything the host had written had already arrived.
   */
  lemma SendResyncs(data: seq<byte>, port: Port)
    requires |data| < 0x1_0000_0000 && SendTimesOut(Op.Send(data), port)
    ensures var r := Requested(Op.Send(data));
            && (LeavesNothing(Op.Send(data), port) <==> port.arrived >= |data| - Reported(port, r.arg1, r.arg2))
            && (NextIsRead(Left(r, port, [])) <==> port.arrived >= |data| - Reported(port, r.arg1, r.arg2))
  {
    NextIsReadIff(Left(Requested(Op.Send(data)), port, []));
  }

  /** A late last byte is reported as success. */
  lemma LateLastByteReported(op: Op, port: Port)
    requires Fits(op) && (op.Send? || op.Receive?)
    ensures var r := Requested(op);
            var late := Late(port, r.arg1, r.arg2);
            Reported(port, r.arg1, r.arg2) == r.arg1 <==> late == r.arg1 || late == r.arg1 - 1
  {
  }
}
