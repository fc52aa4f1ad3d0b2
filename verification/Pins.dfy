/**
  The port pins of driver/servant64/xlink.c.  The data lines of the C64 are spread over
  three ports of the ATmega: PB0-2 on PD5-7, PB3-4 on PB0-1, PB5-7 on PC0-2.
 */
module Pins {
  const PIN_RESET: bv8 := 0x10   // PC4
  const PIN_STROBE: bv8 := 0x10  // PD4
  const PIN_ACK: bv8 := 0x08     // PD3

  const DATA_B: bv8 := 0x03
  const DATA_C: bv8 := 0x07
  const DATA_D: bv8 := 0xe0

  /** Data direction and output registers. */
  datatype Pins = Pins(ddrb: bv8, portb: bv8, ddrc: bv8, portc: bv8, ddrd: bv8, portd: bv8)

  /** The register contents that the firmware may leave between two commands. */
  predicate Safe(p: Pins) {
    && (AllInputs(p) || AllOutputs(p))
    && Control(p.ddrd, p.portd)
    && Released(p.ddrc, p.portc)
  }

  predicate AllInputs(p: Pins) {
    p.ddrb & DATA_B == 0 && p.ddrc & DATA_C == 0 && p.ddrd & DATA_D == 0
  }

  predicate AllOutputs(p: Pins) {
    p.ddrb & DATA_B == DATA_B && p.ddrc & DATA_C == DATA_C && p.ddrd & DATA_D == DATA_D
  }

  /** Everything but the data lines. */
  function Others(p: Pins): Pins {
    Pins(p.ddrb & !DATA_B, p.portb & !DATA_B, p.ddrc & !DATA_C, p.portc & !DATA_C,
         p.ddrd & !DATA_D, p.portd & !DATA_D)
  }

  /** The byte that the output registers put on the data lines. */
  function OnLines(p: Pins): bv8 {
    Gather(p.portb, p.portc, p.portd)
  }

  /** `Read`: gather the byte from three input registers. */
  function Gather(pinb: bv8, pinc: bv8, pind: bv8): bv8 {
    (pind >> 5) | ((pinb & 0x03) << 3) | (pinc << 5)
  }

  // ---- the commands, as functions of the registers ---------------------------------------------

  function Input(p: Pins): Pins {
    Pins(p.ddrb & 0xfc, p.portb | 0x03, p.ddrc & 0xf8, p.portc | 0x07, p.ddrd & 0x1f, p.portd | 0xe0)
  }

  function Output(p: Pins): Pins {
    p.(ddrd := p.ddrd | 0xe0, ddrb := p.ddrb | 0x03, ddrc := p.ddrc | 0x07)
  }

  function Write(p: Pins, byte: bv8): Pins {
    p.(portd := (p.portd & 0x1f) | ((byte & 0x07) << 5),
       portb := (p.portb & 0xfc) | ((byte & 0x18) >> 3),
       portc := (p.portc & 0xf8) | ((byte & 0xe0) >> 5))
  }

  function StrobeLow(p: Pins): Pins {
    p.(portd := p.portd & !PIN_STROBE)
  }

  function StrobeHigh(p: Pins): Pins {
    p.(portd := p.portd | PIN_STROBE)
  }

  function AssertReset(p: Pins): Pins {
    p.(ddrc := p.ddrc | PIN_RESET, portc := p.portc & !PIN_RESET)
  }

  function TristateReset(p: Pins): Pins {
    p.(ddrc := p.ddrc & !PIN_RESET, portc := p.portc | PIN_RESET)
  }

  /** `Read` finds what `Write` has put out, whatever else is on the registers. */
  lemma GatherInvertsScatter(p: Pins, byte: bv8)
    ensures OnLines(Write(p, byte)) == byte
  {
    var w := Write(p, byte);
    assert w.portd >> 5 == byte & 0x07;
    assert w.portb & 0x03 == (byte & 0x18) >> 3;
    assert w.portc << 5 == byte & 0xe0;
  }

  /** The wiring: PB0-PB2 on PD5-PD7, PB3-PB4 on PB0-PB1, PB5-PB7 on PC0-PC2. */
  lemma EachLine(p: Pins, byte: bv8)
    ensures var w := Write(p, byte);
            && (w.portd & 0x20 != 0 <==> byte & 0x01 != 0) && (w.portd & 0x40 != 0 <==> byte & 0x02 != 0)
            && (w.portd & 0x80 != 0 <==> byte & 0x04 != 0) && (w.portb & 0x01 != 0 <==> byte & 0x08 != 0)
            && (w.portb & 0x02 != 0 <==> byte & 0x10 != 0) && (w.portc & 0x01 != 0 <==> byte & 0x20 != 0)
            && (w.portc & 0x02 != 0 <==> byte & 0x40 != 0) && (w.portc & 0x04 != 0 <==> byte & 0x80 != 0)
  {
  }

  lemma WriteTouchesOnlyData(p: Pins, byte: bv8)
    ensures Others(Write(p, byte)) == Others(p)
  {
    assert ((byte & 0x18) >> 3) & !DATA_B == 0;
    assert ((byte & 0xe0) >> 5) & !DATA_C == 0;
    assert ((byte & 0x07) << 5) & !DATA_D == 0;
  }

  lemma InputEffect(p: Pins)
    ensures AllInputs(Input(p)) && OnLines(Input(p)) == 0xff && Others(Input(p)) == Others(p)
  {
    var i := Input(p);
    assert i.portd >> 5 == 0x07 && i.portb & 0x03 == 0x03 && i.portc << 5 == 0xe0;
  }

  lemma OutputEffect(p: Pins)
    ensures AllOutputs(Output(p)) && OnLines(Output(p)) == OnLines(p) && Others(Output(p)) == Others(p)
  {
  }

  datatype Command = DoInput | DoOutput | DoWrite(byte: bv8) | DoStrobe | DoReset

  function Do(p: Pins, c: Command): Pins {
    match c
    case DoInput => Input(p)
    case DoOutput => Output(p)
    case DoWrite(b) => Write(p, b)
    case DoStrobe => StrobeHigh(StrobeLow(p))
    case DoReset => TristateReset(AssertReset(p))
  }

  function Run(p: Pins, cs: seq<Command>): Pins {
    if cs == [] then p else Do(Run(p, cs[..|cs| - 1]), cs[|cs| - 1])
  }

  /** The strobe and acknowledge pins, which no data command may touch. */
  predicate Control(ddrd: bv8, portd: bv8) {
    && ddrd & PIN_STROBE == PIN_STROBE && portd & PIN_STROBE == PIN_STROBE
    && ddrd & PIN_ACK == 0 && portd & PIN_ACK == PIN_ACK
  }

  lemma ControlKept(d: bv8, b: bv8)
    ensures (d & 0x1f) & PIN_STROBE == d & PIN_STROBE && (d & 0x1f) & PIN_ACK == d & PIN_ACK
    ensures (d | 0xe0) & PIN_STROBE == d & PIN_STROBE && (d | 0xe0) & PIN_ACK == d & PIN_ACK
    ensures ((d & 0x1f) | ((b & 0x07) << 5)) & PIN_STROBE == d & PIN_STROBE
    ensures ((d & 0x1f) | ((b & 0x07) << 5)) & PIN_ACK == d & PIN_ACK
  {
  }

  /** RESET is an input with pull-up. */
  predicate Released(ddrc: bv8, portc: bv8) {
    ddrc & PIN_RESET == 0 && portc & PIN_RESET == PIN_RESET
  }

  lemma ReleasedKept(d: bv8, b: bv8)
    ensures (d & 0xf8) & PIN_RESET == d & PIN_RESET && (d | 0x07) & PIN_RESET == d & PIN_RESET
    ensures ((d & 0xf8) | ((b & 0xe0) >> 5)) & PIN_RESET == d & PIN_RESET
  {
  }

  lemma DoKeepsSafe(p: Pins, c: Command)
    requires Safe(p)
    ensures Safe(Do(p, c))
  {
    ReleasedKept(p.ddrc, 0);
    ReleasedKept(p.portc, if c.DoWrite? then c.byte else 0);
    match c
    case DoInput =>
      InputEffect(p);
      ControlKept(p.ddrd, 0);
      ControlKept(p.portd, 0);
    case DoOutput =>
      OutputEffect(p);
      ControlKept(p.ddrd, 0);
    case DoWrite(b) =>
      ControlKept(p.portd, b);
    case DoStrobe => StrobeReturns(p);
    case DoReset => ResetReturns(p);
  }

  lemma StrobeReturns(p: Pins)
    requires Control(p.ddrd, p.portd)
    ensures StrobeHigh(StrobeLow(p)) == p && OnLines(StrobeLow(p)) == OnLines(p)
    ensures StrobeLow(p).portd & PIN_STROBE == 0
  {
  }

  lemma ResetReturns(p: Pins)
    requires Released(p.ddrc, p.portc)
    ensures TristateReset(AssertReset(p)) == p
    ensures AssertReset(p).ddrc & PIN_RESET != 0 && AssertReset(p).portc & PIN_RESET == 0
  {
  }

  // ---- what is on the wires -------------------------------------------------------------------------

  /** The registers, the data lines at each falling edge of the strobe, and how often RESET went low. */
  datatype Wires = Wires(pins: Pins, falls: seq<bv8>, resets: nat)

  /** Directions and all pins but the data lines are as before. */
  predicate Steady(p: Pins, q: Pins) {
    q.ddrb == p.ddrb && q.ddrc == p.ddrc && q.ddrd == p.ddrd && Others(q) == Others(p)
  }

  /** What each command is for. */
  predicate Effect(c: Command, a: Wires, z: Wires) {
    match c
    case DoInput =>
      AllInputs(z.pins) && OnLines(z.pins) == 0xff && Others(z.pins) == Others(a.pins)
      && z.falls == a.falls && z.resets == a.resets
    case DoOutput =>
      AllOutputs(z.pins) && OnLines(z.pins) == OnLines(a.pins) && Others(z.pins) == Others(a.pins)
      && z.falls == a.falls && z.resets == a.resets
    case DoWrite(byte) =>
      OnLines(z.pins) == byte && Steady(a.pins, z.pins) && z.falls == a.falls && z.resets == a.resets
    case DoStrobe => z == a.(falls := a.falls + [OnLines(a.pins)])
    case DoReset => z == a.(resets := a.resets + 1)
  }

  /** Over any run of commands the data lines point one way, strobe rests high, ACK stays an input. */
  lemma {:induction false} RunSafe(p: Pins, cs: seq<Command>)
    requires Safe(p)
    ensures Safe(Run(p, cs))
  {
    if cs != [] {
      RunSafe(p, cs[..|cs| - 1]);
      DoKeepsSafe(Run(p, cs[..|cs| - 1]), cs[|cs| - 1]);
    }
  }

  lemma WriteEffect(p: Pins, byte: bv8)
    ensures OnLines(Write(p, byte)) == byte && Steady(p, Write(p, byte))
  {
    GatherInvertsScatter(p, byte);
    WriteTouchesOnlyData(p, byte);
  }

  lemma EffectIs(c: Command, a: Wires, z: Wires)
    requires Safe(a.pins) && z.pins == Do(a.pins, c)
    requires z.falls == a.falls + (if c.DoStrobe? then [OnLines(a.pins)] else [])
    requires z.resets == a.resets + (if c.DoReset? then 1 else 0)
    ensures Effect(c, a, z)
  {
    match c
    case DoInput => InputEffect(a.pins);
    case DoOutput => OutputEffect(a.pins);
    case DoWrite(b) => WriteEffect(a.pins, b);
    case DoStrobe => StrobeReturns(a.pins);
    case DoReset => ResetReturns(a.pins);
  }

  /** The registers, changed one access at a time as the firmware does, with what that does to the wires. */
  class Adapter {
    var ddrb: bv8
    var portb: bv8
    var ddrc: bv8
    var portc: bv8
    var ddrd: bv8
    var portd: bv8
    ghost var falls: seq<bv8>
    ghost var resets: nat

    function Registers(): Pins
      reads this
    {
      Pins(ddrb, portb, ddrc, portc, ddrd, portd)
    }

    ghost function View(): Wires
      reads this
    {
      Wires(Registers(), falls, resets)
    }

    /** SetupHardware, from any register contents. */
    constructor (ddrb: bv8, portb: bv8, ddrc: bv8, portc: bv8, ddrd: bv8, portd: bv8)
      ensures Safe(Registers()) && AllInputs(Registers()) && falls == [] && resets == 0
    {
      this.ddrb, this.portb, this.ddrc := ddrb, portb, ddrc;
      this.portc, this.ddrd, this.portd := portc, ddrd, portd;
      new;
      Tristate();
      this.ddrd := this.ddrd | PIN_STROBE;
      StorePortD(this.portd | PIN_STROBE);
      this.ddrd := this.ddrd & !PIN_ACK;
      StorePortD(this.portd | PIN_ACK);
      var before := Registers();
      ControlKept(this.ddrd, 0);
      ControlKept(this.portd, 0);
      ReleasedKept(this.ddrc, 0);
      ReleasedKept(this.portc, 0);
      DriveNone();
      InputEffect(before);
      falls, resets := [], 0;
    }

    lemma NoEdge(ddr: bv8, before: bv8, after: bv8, pin: bv8)
      ensures after & pin == before & pin ==> !(ddr & before & pin != 0 && after & pin == 0)
    {
    }

    /** A store to PORTD; the strobe falls when its pin, an output, goes from high to low. */
    method StorePortD(value: bv8)
      modifies this`portd, this`falls
      ensures portd == value
      ensures falls == if ddrd & old(portd) & PIN_STROBE != 0 && value & PIN_STROBE == 0
                       then old(falls) + [Gather(portb, portc, value)] else old(falls)
      ensures value & PIN_STROBE == old(portd) & PIN_STROBE ==> falls == old(falls)
    {
      NoEdge(ddrd, portd, value, PIN_STROBE);
      if ddrd & portd & PIN_STROBE != 0 && value & PIN_STROBE == 0 {
        falls := falls + [Gather(portb, portc, value)];
      }
      portd := value;
    }

    /** A store to PORTC; the same for RESET. */
    method StorePortC(value: bv8)
      modifies this`portc, this`resets
      ensures portc == value
      ensures resets == old(resets) + if ddrc & old(portc) & PIN_RESET != 0 && value & PIN_RESET == 0 then 1 else 0
      ensures value & PIN_RESET == old(portc) & PIN_RESET ==> resets == old(resets)
    {
      NoEdge(ddrc, portc, value, PIN_RESET);
      if ddrc & portc & PIN_RESET != 0 && value & PIN_RESET == 0 {
        resets := resets + 1;
      }
      portc := value;
    }

    method Tristate()
      modifies this
      ensures Registers() == TristateReset(old(Registers())) && falls == old(falls) && resets == old(resets)
    {
      ddrc := ddrc & !PIN_RESET;
      StorePortC(portc | PIN_RESET);
    }

    /** `Input`. */
    method DriveNone()
      modifies this
      ensures Registers() == Input(old(Registers()))
      ensures falls == old(falls) && resets == old(resets)
    {
      ControlKept(portd, 0);
      ReleasedKept(portc, 0);
      ddrd := ddrd & 0x1f;
      StorePortD(portd | 0xe0);
      ddrb := ddrb & 0xfc;
      portb := portb | 0x03;
      ddrc := ddrc & 0xf8;
      StorePortC(portc | 0x07);
    }

    /** `Output`. */
    method DriveAll()
      modifies this`ddrb, this`ddrc, this`ddrd
      ensures Registers() == Output(old(Registers()))
    {
      ddrd := ddrd | 0xe0;
      ddrb := ddrb | 0x03;
      ddrc := ddrc | 0x07;
    }

    /** `Write`. */
    method Scatter(byte: bv8)
      modifies this
      ensures Registers() == Write(old(Registers()), byte)
      ensures OnLines(Registers()) == byte && Others(Registers()) == Others(old(Registers()))
      ensures falls == old(falls) && resets == old(resets)
    {
      StoreScattered(byte);
      WriteEffect(old(Registers()), byte);
    }

    method StoreScattered(byte: bv8)
      modifies this
      ensures Registers() == Write(old(Registers()), byte)
      ensures falls == old(falls) && resets == old(resets)
    {
      ScatterKept(portd, portc, byte);
      StorePortD(portd & 0x1f);
      StorePortD(portd | ((byte & 0x07) << 5));
      portb := portb & 0xfc;
      portb := portb | ((byte & 0x18) >> 3);
      StorePortC(portc & 0xf8);
      StorePortC(portc | ((byte & 0xe0) >> 5));
    }

    lemma ScatterKept(d: bv8, c: bv8, byte: bv8)
      ensures (d & 0x1f) & PIN_STROBE == d & PIN_STROBE
      ensures ((d & 0x1f) | ((byte & 0x07) << 5)) & PIN_STROBE == d & PIN_STROBE
      ensures (c & 0xf8) & PIN_RESET == c & PIN_RESET
      ensures ((c & 0xf8) | ((byte & 0xe0) >> 5)) & PIN_RESET == c & PIN_RESET
    {
    }

    /** `Strobe`: the line goes low and comes back. */
    method Pulse()
      requires Safe(Registers())
      modifies this`portd, this`falls
      ensures Registers() == old(Registers()) && falls == old(falls) + [OnLines(Registers())]
    {
      StrobeReturns(Registers());
      StorePortD(portd & !PIN_STROBE);
      StorePortD(portd | PIN_STROBE);
    }

    /** `Reset`. */
    method PulseReset()
      requires Safe(Registers())
      modifies this
      ensures Registers() == old(Registers()) && falls == old(falls) && resets == old(resets) + 1
    {
      ResetReturns(Registers());
      ddrc := ddrc | PIN_RESET;
      StorePortC(portc & !PIN_RESET);
      Tristate();
    }

    /** One command does what it is for. */
    method Execute(c: Command)
      requires Safe(Registers())
      modifies this
      ensures Registers() == Do(old(Registers()), c) && Safe(Registers())
      ensures Effect(c, old(View()), View())
    {
      ghost var before := View();
      DoKeepsSafe(Registers(), c);
      Dispatch(c);
      EffectIs(c, before, View());
    }

    method Dispatch(c: Command)
      requires Safe(Registers())
      modifies this
      ensures Registers() == Do(old(Registers()), c)
      ensures falls == old(falls) + (if c.DoStrobe? then [OnLines(old(Registers()))] else [])
      ensures resets == old(resets) + (if c.DoReset? then 1 else 0)
    {
      match c
      case DoInput => DriveNone();
      case DoOutput => DriveAll();
      case DoWrite(b) => Scatter(b);
      case DoStrobe =>
        StrobeReturns(Registers());
        Pulse();
      case DoReset =>
        ResetReturns(Registers());
        PulseReset();
    }
  }
}
