/** GPIO ports, stepper axes and endstops on values: what a pin change does to an axis, what the endstop pins show,
    and what a whole run of register writes and motor switches amounts to. */
module Steppers {

  const PORTS: nat := 5
  const PINS: nat := 32

  /** A 32-bit register as its bits, lowest first. */
  type Register = w: seq<bool> | |w| == 32 witness seq(32, _ => false)

  type Ports = p: seq<Register> | |p| == 5 witness seq(5, _ => seq(32, _ => false))

  datatype Pin = Pin(port: nat, pin: nat) {
    predicate Valid() {
      port < PORTS && pin < PINS
    }
  }

  datatype Side = Min | Max

  datatype Endstop = Endstop(side: Side, enabled: bool, pin: Pin, triggerMm: real, whenGreaterOrEqual: bool,
                             rawWhenTriggered: bool)

  datatype AxisConfig = AxisConfig(stepPin: Pin, directionPin: Pin, invertDirection: bool, stepsPerMm: real,
                                   endstops: seq<Endstop>)
  {
    predicate Valid() {
      && stepPin.Valid() && directionPin.Valid() && stepsPerMm > 0.0
      && forall i | 0 <= i < |endstops| :: endstops[i].pin.Valid()
    }
  }

  datatype AxisState = AxisState(position: int, stepHigh: bool, directionHigh: bool, motorConnected: bool)

  function Level(ports: Ports, pin: Pin): bool
    requires pin.Valid()
  {
    ports[pin.port][pin.pin]
  }

  /* ----- One axis ----- */

  predicate Moves(c: AxisConfig, s: AxisState, pin: Pin, high: bool) {
    pin != c.directionPin && pin == c.stepPin && high && !s.stepHigh && s.motorConnected
  }

  function OnPin(c: AxisConfig, s: AxisState, pin: Pin, high: bool): AxisState {
    if pin == c.directionPin then s.(directionHigh := high)
    else if pin != c.stepPin then s
    else if !Moves(c, s, pin, high) then s.(stepHigh := high)
    else s.(stepHigh := high, position := s.position + (if s.directionHigh != c.invertDirection then -1 else 1))
  }

  predicate Triggered(c: AxisConfig, s: AxisState, e: Endstop)
    requires c.stepsPerMm > 0.0
  {
    e.enabled &&
    (!s.motorConnected ||
     var mm := s.position as real / c.stepsPerMm;
     if e.whenGreaterOrEqual then mm >= e.triggerMm else mm <= e.triggerMm)
  }

  ghost predicate Drives(c: AxisConfig, pin: Pin) {
    exists i | 0 <= i < |c.endstops| :: c.endstops[i].enabled && c.endstops[i].pin == pin
  }

  ghost predicate AnyTriggered(c: AxisConfig, s: AxisState, pin: Pin)
    requires c.stepsPerMm > 0.0
  {
    exists i | 0 <= i < |c.endstops| :: c.endstops[i].pin == pin && Triggered(c, s, c.endstops[i])
  }

  /** The polarity the last enabled endstop on a pin asks for. */
  function RawWhenTriggered(endstops: seq<Endstop>, pin: Pin, default: bool): bool {
    if endstops == [] then default
    else
      var last := endstops[|endstops| - 1];
      if last.enabled && last.pin == pin then last.rawWhenTriggered
      else RawWhenTriggered(endstops[..|endstops| - 1], pin, default)
  }

  /** The level the axis puts on one of its endstop pins. */
  ghost function EndstopLevel(c: AxisConfig, s: AxisState, pin: Pin): bool
    requires c.stepsPerMm > 0.0
  {
    var raw := RawWhenTriggered(c.endstops, pin, true);
    if AnyTriggered(c, s, pin) then raw else !raw
  }

  ghost function DrivenPorts(c: AxisConfig, s: AxisState, ports: Ports): (r: Ports)
    requires c.stepsPerMm > 0.0
    ensures forall p, b | 0 <= p < PORTS && 0 <= b < PINS ::
              r[p][b] == if Drives(c, Pin(p, b)) then EndstopLevel(c, s, Pin(p, b)) else ports[p][b]
  {
    seq(5, p requires 0 <= p < 5 =>
      seq(32, b requires 0 <= b < 32 =>
        if Drives(c, Pin(p, b)) then EndstopLevel(c, s, Pin(p, b)) else ports[p][b]))
  }

  /* ----- One register write seen by one axis ----- */

  /** The port after writing `bits` to its set or clear register: only outputs follow. */
  function Written(previous: Register, bits: Register, direction: Register, sets: bool): Register {
    seq(32, i requires 0 <= i < 32 => if bits[i] && direction[i] then sets else previous[i])
  }

  /** The axis after being notified of the changed pins below n, in ascending order. */
  function Notified(c: AxisConfig, s: AxisState, port: nat, previous: Register, current: Register, n: nat): AxisState
    requires n <= PINS
  {
    if n == 0 then s
    else
      var t := Notified(c, s, port, previous, current, n - 1);
      if previous[n - 1] == current[n - 1] then t else OnPin(c, t, Pin(port, n - 1), current[n - 1])
  }

  /** The signed step a change of the pin levels amounts to. The direction level that counts is the one the axis has
      been told when the step pin's turn comes: the old one exactly if the direction pin follows on the same port. */
  function Contribution(c: AxisConfig, before: Ports, after: Ports): int
    requires c.Valid()
  {
    var late := c.directionPin.port == c.stepPin.port && c.directionPin.pin > c.stepPin.pin;
    var direction := Level(if late then before else after, c.directionPin);
    if Level(before, c.stepPin) || !Level(after, c.stepPin) then 0
    else if direction != c.invertDirection then -1 else 1
  }

  /** The axis remembers the levels of its step and direction pins. */
  predicate Remembers(c: AxisConfig, s: AxisState, ports: Ports)
    requires c.Valid()
  {
    s.stepHigh == Level(ports, c.stepPin) && s.directionHigh == Level(ports, c.directionPin)
  }

  lemma {:induction false} NotifiedForm(c: AxisConfig, s: AxisState, port: nat, before: Ports, current: Register,
                                        n: nat)
    requires c.Valid() && c.stepPin != c.directionPin && Remembers(c, s, before) && port < PORTS && n <= PINS
    ensures var t := Notified(c, s, port, before[port], current, n);
            var stepDone := c.stepPin.port == port && c.stepPin.pin < n;
            var after := before[port := current];
            && t.stepHigh == Level(if stepDone then after else before, c.stepPin)
            && t.directionHigh == Level(if c.directionPin.port == port && c.directionPin.pin < n then after else before,
                                        c.directionPin)
            && t.motorConnected == s.motorConnected
            && t.position == s.position +
                             if stepDone && s.motorConnected then Contribution(c, before, after) else 0
  {
    if n > 0 {
      NotifiedForm(c, s, port, before, current, n - 1);
    }
  }

  /** A whole write moves a connected axis by its contribution and leaves it remembering the new levels. */
  lemma WriteMoves(c: AxisConfig, s: AxisState, port: nat, before: Ports, current: Register)
    requires c.Valid() && c.stepPin != c.directionPin && Remembers(c, s, before) && port < PORTS
    ensures var t := Notified(c, s, port, before[port], current, PINS);
            var after := before[port := current];
            && Remembers(c, t, after) && t.motorConnected == s.motorConnected
            && t.position == s.position + if s.motorConnected then Contribution(c, before, after) else 0
  {
    NotifiedForm(c, s, port, before, current, PINS);
  }

  /* ----- The board ----- */

  datatype Axis = Axis(config: AxisConfig, state: AxisState)

  datatype Bench = Bench(ports: Ports, directions: Ports, axes: seq<Axis>)

  datatype Event = Write(port: nat, bits: Register, sets: bool) | Connect(axis: nat, on: bool)

  /** Endstop pins are inputs, belong to one axis, and are no axis' step or direction pin. */
  ghost predicate Wired(directions: Ports, configs: seq<AxisConfig>) {
    && (forall i | 0 <= i < |configs| :: configs[i].Valid() && configs[i].stepPin != configs[i].directionPin)
    && (forall i, pin: Pin | 0 <= i < |configs| && pin.Valid() && Drives(configs[i], pin) :: !Level(directions, pin))
    && (forall i, j | 0 <= i < |configs| && 0 <= j < |configs| ::
          !Drives(configs[i], configs[j].stepPin) && !Drives(configs[i], configs[j].directionPin))
    && forall i, j, pin: Pin | 0 <= i < j < |configs| && Drives(configs[i], pin) :: !Drives(configs[j], pin)
  }

  /** The axis' memory of its pins, and the endstop pins' picture of the axis, are up to date. */
  ghost predicate AxisAgrees(c: AxisConfig, s: AxisState, ports: Ports)
    requires c.Valid()
  {
    && Remembers(c, s, ports)
    && forall pin: Pin | pin.Valid() && Drives(c, pin) :: Level(ports, pin) == EndstopLevel(c, s, pin)
  }

  ghost function Configs(axes: seq<Axis>): (configs: seq<AxisConfig>)
    ensures |configs| == |axes| && forall i | 0 <= i < |axes| :: configs[i] == axes[i].config
  {
    seq(|axes|, i requires 0 <= i < |axes| => axes[i].config)
  }

  ghost predicate WellWired(b: Bench): (ok: bool)
    ensures ok ==> forall i | 0 <= i < |b.axes| :: b.axes[i].config.Valid()
  {
    Wired(b.directions, Configs(b.axes))
  }

  ghost predicate Agrees(b: Bench)
    requires WellWired(b)
  {
    forall i | 0 <= i < |b.axes| :: AxisAgrees(b.axes[i].config, b.axes[i].state, b.ports)
  }

  /** The ports with the endstop pins of the first n axes showing those axes. */
  ghost function ShownPorts(axes: seq<Axis>, ports: Ports, n: nat): Ports
    requires n <= |axes| && forall i | 0 <= i < |axes| :: axes[i].config.Valid()
  {
    if n == 0 then ports
    else DrivenPorts(axes[n - 1].config, axes[n - 1].state, ShownPorts(axes, ports, n - 1))
  }

  ghost function AfterEvent(b: Bench, e: Event): (b': Bench)
    requires WellWired(b)
    ensures WellWired(b') && |b'.axes| == |b.axes|
    ensures forall i | 0 <= i < |b.axes| :: b'.axes[i].config == b.axes[i].config
  {
    match e
    case Write(port, bits, sets) =>
      if port >= PORTS then b
      else
        var previous := b.ports[port];
        var current := Written(previous, bits, b.directions[port], sets);
        var axes := seq(|b.axes|, i requires 0 <= i < |b.axes| =>
                          Axis(b.axes[i].config,
                               Notified(b.axes[i].config, b.axes[i].state, port, previous, current, PINS)));
        assert Configs(axes) == Configs(b.axes);
        Bench(ShownPorts(axes, b.ports[port := current], |axes|), b.directions, axes)
    case Connect(axis, on) =>
      if axis >= |b.axes| then b
      else
        var a := b.axes[axis].(state := b.axes[axis].state.(motorConnected := on));
        assert Configs(b.axes[axis := a]) == Configs(b.axes);
        Bench(DrivenPorts(a.config, a.state, b.ports), b.directions, b.axes[axis := a])
  }

  ghost function AfterRun(b: Bench, events: seq<Event>): (b': Bench)
    requires WellWired(b)
    ensures WellWired(b') && |b'.axes| == |b.axes|
    ensures forall i | 0 <= i < |b.axes| :: b'.axes[i].config == b.axes[i].config
  {
    if events == [] then b else AfterEvent(AfterRun(b, events[..|events| - 1]), events[|events| - 1])
  }

  /* ----- Whole runs ----- */

  lemma {:induction false} ShownPortsAt(axes: seq<Axis>, ports: Ports, directions: Ports, n: nat, pin: Pin)
    requires Wired(directions, Configs(axes)) && n <= |axes| && pin.Valid()
    requires forall i | 0 <= i < |axes| :: axes[i].config.Valid()
    ensures forall i | 0 <= i < n && Drives(axes[i].config, pin) ::
              Level(ShownPorts(axes, ports, n), pin) == EndstopLevel(axes[i].config, axes[i].state, pin)
    ensures (forall i | 0 <= i < n :: !Drives(axes[i].config, pin)) ==>
              Level(ShownPorts(axes, ports, n), pin) == Level(ports, pin)
  {
    hide EndstopLevel, DrivenPorts, ShownPorts, Wired, Drives, Level, Configs;
    ShownPortsUnfolds(axes, ports, n);
    if n > 0 {
      ShownPortsAt(axes, ports, directions, n - 1, pin);
      PinsArePrivate(axes, directions, n - 1, pin);
      DrivenPortsAt(axes[n - 1].config, axes[n - 1].state, ShownPorts(axes, ports, n - 1), pin);
    }
  }

  lemma ShownPortsUnfolds(axes: seq<Axis>, ports: Ports, n: nat)
    requires n <= |axes| && forall i | 0 <= i < |axes| :: axes[i].config.Valid()
    ensures ShownPorts(axes, ports, n)
            == if n == 0 then ports
               else DrivenPorts(axes[n - 1].config, axes[n - 1].state, ShownPorts(axes, ports, n - 1))
  {
    hide DrivenPorts;
  }

  lemma PinsArePrivate(axes: seq<Axis>, directions: Ports, j: nat, pin: Pin)
    requires Wired(directions, Configs(axes)) && j < |axes| && pin.Valid()
    ensures forall i | 0 <= i < j && Drives(axes[i].config, pin) :: !Drives(axes[j].config, pin)
  {
    var configs := Configs(axes);
    assert forall i | 0 <= i < |axes| :: configs[i] == axes[i].config;
  }

  lemma DrivenPortsAt(c: AxisConfig, s: AxisState, ports: Ports, pin: Pin)
    requires c.stepsPerMm > 0.0 && pin.Valid()
    ensures Level(DrivenPorts(c, s, ports), pin)
            == if Drives(c, pin) then EndstopLevel(c, s, pin) else Level(ports, pin)
  {
    assert pin == Pin(pin.port, pin.pin);
  }

  lemma WriteKeepsAgreement(b: Bench, port: nat, bits: Register, sets: bool, i: nat)
    requires WellWired(b) && Agrees(b) && port < PORTS && i < |b.axes|
    ensures var b' := AfterEvent(b, Write(port, bits, sets)); AxisAgrees(b'.axes[i].config, b'.axes[i].state, b'.ports)
  {
    hide Drives, EndstopLevel, ShownPorts, Notified, Wired;
    var b' := AfterEvent(b, Write(port, bits, sets));
    var current := Written(b.ports[port], bits, b.directions[port], sets);
    var c, after := b.axes[i].config, b.ports[port := current];
    assert Configs(b'.axes) == Configs(b.axes) && Configs(b.axes)[i] == c;
    StepPinsUndriven(b, i);
    WriteMoves(c, b.axes[i].state, port, b.ports, current);
    ShownPortsAt(b'.axes, after, b.directions, |b.axes|, c.stepPin);
    ShownPortsAt(b'.axes, after, b.directions, |b.axes|, c.directionPin);
    forall pin: Pin | pin.Valid() && Drives(c, pin)
      ensures Level(b'.ports, pin) == EndstopLevel(c, b'.axes[i].state, pin)
    {
      ShownPortsAt(b'.axes, after, b.directions, |b.axes|, pin);
    }
  }

  lemma StepPinsUndriven(b: Bench, i: nat)
    requires WellWired(b) && i < |b.axes|
    ensures var c := b.axes[i].config;
            && c.stepPin != c.directionPin
            && forall j | 0 <= j < |b.axes| ::
                 !Drives(b.axes[j].config, c.stepPin) && !Drives(b.axes[j].config, c.directionPin)
  {
    assert Configs(b.axes)[i] == b.axes[i].config;
    forall j | 0 <= j < |b.axes|
      ensures !Drives(b.axes[j].config, b.axes[i].config.stepPin)
      ensures !Drives(b.axes[j].config, b.axes[i].config.directionPin)
    {
      assert Configs(b.axes)[j] == b.axes[j].config;
    }
  }

  lemma ConnectKeepsAgreement(b: Bench, axis: nat, on: bool, i: nat)
    requires WellWired(b) && Agrees(b) && axis < |b.axes| && i < |b.axes|
    ensures var b' := AfterEvent(b, Connect(axis, on)); AxisAgrees(b'.axes[i].config, b'.axes[i].state, b'.ports)
  {
    hide Drives, EndstopLevel, DrivenPorts;
    var b' := AfterEvent(b, Connect(axis, on));
    var a, c := b'.axes[axis], b.axes[i].config;
    StepPinsUndriven(b, i);
    DrivenPortsAt(a.config, a.state, b.ports, c.stepPin);
    DrivenPortsAt(a.config, a.state, b.ports, c.directionPin);
    forall pin: Pin | pin.Valid() && Drives(c, pin)
      ensures Level(b'.ports, pin) == EndstopLevel(c, b'.axes[i].state, pin)
    {
      DrivenPortsAt(a.config, a.state, b.ports, pin);
      assert Configs(b.axes)[i] == c && Configs(b.axes)[axis] == a.config;
    }
  }

  /** Every register write and every motor switch keeps the remembered pin levels equal to the port bits and every
      endstop pin equal to what its axis' position and motor say. */
  lemma EventKeepsAgreement(b: Bench, e: Event)
    requires WellWired(b) && Agrees(b)
    ensures Agrees(AfterEvent(b, e))
  {
    hide AfterEvent, AxisAgrees;
    forall i | 0 <= i < |b.axes|
      ensures var b' := AfterEvent(b, e); AxisAgrees(b'.axes[i].config, b'.axes[i].state, b'.ports)
    {
      match e {
        case Write(port, bits, sets) =>
          if port < PORTS {
            WriteKeepsAgreement(b, port, bits, sets, i);
          } else {
            NoSuchTarget(b, e);
          }
        case Connect(axis, on) =>
          if axis < |b.axes| {
            ConnectKeepsAgreement(b, axis, on, i);
          } else {
            NoSuchTarget(b, e);
          }
      }
    }
  }

  lemma NoSuchTarget(b: Bench, e: Event)
    requires WellWired(b)
    ensures (e.Write? && e.port >= PORTS) || (e.Connect? && e.axis >= |b.axes|) ==> AfterEvent(b, e) == b
  {
  }

  /** An axis added with the levels of its pins read from the ports and its endstop pins written joins in agreement. */
  lemma AddedAxisAgrees(b: Bench, c: AxisConfig, s: AxisState)
    requires WellWired(b) && Agrees(b) && c.Valid() && Remembers(c, s, b.ports)
    requires WellWired(Bench(DrivenPorts(c, s, b.ports), b.directions, b.axes + [Axis(c, s)]))
    ensures Agrees(Bench(DrivenPorts(c, s, b.ports), b.directions, b.axes + [Axis(c, s)]))
  {
    hide Drives, EndstopLevel, DrivenPorts;
    var b' := Bench(DrivenPorts(c, s, b.ports), b.directions, b.axes + [Axis(c, s)]);
    var last := |b.axes|;
    assert Configs(b'.axes)[last] == c;
    forall i | 0 <= i < |b'.axes|
      ensures AxisAgrees(b'.axes[i].config, b'.axes[i].state, b'.ports)
    {
      var d := b'.axes[i].config;
      StepPinsUndriven(b', i);
      assert b'.axes[last].config == c && Configs(b'.axes)[i] == d;
      DrivenPortsAt(c, s, b.ports, d.stepPin);
      DrivenPortsAt(c, s, b.ports, d.directionPin);
      forall pin: Pin | pin.Valid() && Drives(d, pin)
        ensures Level(b'.ports, pin) == EndstopLevel(d, b'.axes[i].state, pin)
      {
        DrivenPortsAt(c, s, b.ports, pin);
        if i < last {
          assert AxisAgrees(b.axes[i].config, b.axes[i].state, b.ports);
        }
      }
    }
  }

  lemma {:induction false} RunKeepsAgreement(b: Bench, events: seq<Event>)
    requires WellWired(b) && Agrees(b)
    ensures Agrees(AfterRun(b, events))
  {
    hide Agrees, AfterEvent;
    if events != [] {
      RunKeepsAgreement(b, events[..|events| - 1]);
      EventKeepsAgreement(AfterRun(b, events[..|events| - 1]), events[|events| - 1]);
    }
  }

  /** The signed count of rising step edges of axis i over a run, read off the pins alone. */
  ghost function Travel(b: Bench, events: seq<Event>, i: nat): int
    requires WellWired(b) && i < |b.axes|
  {
    if events == [] then 0
    else
      var front, e := events[..|events| - 1], events[|events| - 1];
      var b1 := AfterRun(b, front);
      Travel(b, front, i) +
      if e.Write? && e.port < PORTS && b1.axes[i].state.motorConnected then
        Contribution(b1.axes[i].config, b1.ports,
                     b1.ports[e.port := Written(b1.ports[e.port], e.bits, b1.directions[e.port], e.sets)])
      else 0
  }

  /** Over any run an axis' position is its initial position plus the signed count of rising step edges made while
      its motor was connected. */
  lemma {:induction false} PositionCountsEdges(b: Bench, events: seq<Event>, i: nat)
    requires WellWired(b) && Agrees(b) && i < |b.axes|
    ensures AfterRun(b, events).axes[i].state.position == b.axes[i].state.position + Travel(b, events, i)
  {
    if events != [] {
      var front, e := events[..|events| - 1], events[|events| - 1];
      var b1 := AfterRun(b, front);
      PositionCountsEdges(b, front, i);
      RunKeepsAgreement(b, front);
      EventMoves(b1, e, i);
    }
  }

  lemma EventMoves(b: Bench, e: Event, i: nat)
    requires WellWired(b) && Agrees(b) && i < |b.axes|
    ensures var s, s' := b.axes[i].state, AfterEvent(b, e).axes[i].state;
            s'.position == s.position +
                           if e.Write? && e.port < PORTS && s.motorConnected then
                             var register := Written(b.ports[e.port], e.bits, b.directions[e.port], e.sets);
                             Contribution(b.axes[i].config, b.ports, b.ports[e.port := register])
                           else 0
  {
    if e.Write? && e.port < PORTS {
      StepPinsUndriven(b, i);
      WriteMoves(b.axes[i].config, b.axes[i].state, e.port, b.ports,
                 Written(b.ports[e.port], e.bits, b.directions[e.port], e.sets));
    }
  }

  /** With one polarity per pin, an endstop pin is at its triggered level exactly when an endstop on it is triggered. */
  lemma {:induction false} OnePolarity(c: AxisConfig, s: AxisState, pin: Pin, raw: bool)
    requires c.stepsPerMm > 0.0 && Drives(c, pin)
    requires forall i | 0 <= i < |c.endstops| && c.endstops[i].enabled && c.endstops[i].pin == pin ::
               c.endstops[i].rawWhenTriggered == raw
    ensures EndstopLevel(c, s, pin) == raw <==> AnyTriggered(c, s, pin)
  {
    LastPolarity(c.endstops, pin, raw);
  }

  lemma {:induction false} LastPolarity(endstops: seq<Endstop>, pin: Pin, raw: bool)
    requires forall i | 0 <= i < |endstops| && endstops[i].enabled && endstops[i].pin == pin ::
               endstops[i].rawWhenTriggered == raw
    requires exists i | 0 <= i < |endstops| :: endstops[i].enabled && endstops[i].pin == pin
    ensures RawWhenTriggered(endstops, pin, true) == raw
  {
    var last := |endstops| - 1;
    if !(endstops[last].enabled && endstops[last].pin == pin) {
      LastPolarity(endstops[..last], pin, raw);
    }
  }

  /* ----- In positions and pin levels ----- */

  /** An endstop's side of its position, in steps: at or above it for one kind, at or below it for the other. */
  ghost predicate OnItsSide(e: Endstop, position: int, stepsPerMm: real) {
    if e.whenGreaterOrEqual then position as real >= e.triggerMm * stepsPerMm
    else position as real <= e.triggerMm * stepsPerMm
  }

  lemma TriggeredBySteps(c: AxisConfig, s: AxisState, e: Endstop)
    requires c.stepsPerMm > 0.0
    ensures Triggered(c, s, e) <==> e.enabled && (!s.motorConnected || OnItsSide(e, s.position, c.stepsPerMm))
  {
    var x := s.position as real;
    var mm := x / c.stepsPerMm;
    assert mm * c.stepsPerMm == x;
    SameOrder(mm, e.triggerMm, c.stepsPerMm);
  }

  lemma SameOrder(a: real, b: real, m: real)
    requires m > 0.0
    ensures a >= b <==> a * m >= b * m
    ensures a <= b <==> a * m <= b * m
  {
    if a < b { LessTimes(a, b, m); } else if b < a { LessTimes(b, a, m); }
  }

  lemma LessTimes(a: real, b: real, m: real)
    requires m > 0.0 && a < b
    ensures a * m < b * m
  {
  }

  /** After any run on a wired board, an endstop pin is at the triggered level of the last enabled endstop on it exactly
      when the motor is off or the axis stands on the side of one of the enabled endstops on it. */
  lemma EndstopPinTells(b: Bench, events: seq<Event>, i: nat, k: nat)
    requires WellWired(b) && Agrees(b) && i < |b.axes| && k < |b.axes[i].config.endstops|
    requires b.axes[i].config.endstops[k].enabled
    requires forall m | k < m < |b.axes[i].config.endstops| ::
               !b.axes[i].config.endstops[m].enabled
               || b.axes[i].config.endstops[m].pin != b.axes[i].config.endstops[k].pin
    ensures var c, b' := b.axes[i].config, AfterRun(b, events);
            var last, s := c.endstops[k], b'.axes[i].state;
            && last.pin.port < 5 && last.pin.pin < 32
            && (b'.ports[last.pin.port][last.pin.pin] == last.rawWhenTriggered
                <==> !s.motorConnected
                     || exists e | e in c.endstops ::
                          e.enabled && e.pin == last.pin && OnItsSide(e, s.position, c.stepsPerMm))
  {
    hide AfterRun, Agrees, OnItsSide, AnyTriggered, WellWired;
    var c, b' := b.axes[i].config, AfterRun(b, events);
    assert c.Valid() && c.endstops[k].pin.Valid();
    RunKeepsAgreement(b, events);
    PinShowsAxis(b', i, c.endstops[k].pin);
    PolarityOfLast(c.endstops, k);
    AnyOnItsSide(c, b'.axes[i].state, c.endstops[k].pin);
  }

  lemma {:induction false} PolarityOfLast(endstops: seq<Endstop>, k: nat)
    requires k < |endstops| && endstops[k].enabled
    requires forall m | k < m < |endstops| :: !endstops[m].enabled || endstops[m].pin != endstops[k].pin
    ensures RawWhenTriggered(endstops, endstops[k].pin, true) == endstops[k].rawWhenTriggered
  {
    if k < |endstops| - 1 { PolarityOfLast(endstops[..|endstops| - 1], k); }
  }

  lemma PinShowsAxis(b: Bench, i: nat, pin: Pin)
    requires WellWired(b) && Agrees(b) && i < |b.axes| && pin.Valid() && Drives(b.axes[i].config, pin)
    ensures b.ports[pin.port][pin.pin] == EndstopLevel(b.axes[i].config, b.axes[i].state, pin)
  {
    hide EndstopLevel, Drives;
    assert AxisAgrees(b.axes[i].config, b.axes[i].state, b.ports);
  }

  lemma AnyOnItsSide(c: AxisConfig, s: AxisState, pin: Pin)
    requires c.stepsPerMm > 0.0 && Drives(c, pin)
    ensures AnyTriggered(c, s, pin)
            <==> !s.motorConnected
                 || exists e | e in c.endstops :: e.enabled && e.pin == pin && OnItsSide(e, s.position, c.stepsPerMm)
  {
    hide Triggered, OnItsSide;
    forall e: Endstop
      ensures Triggered(c, s, e) <==> e.enabled && (!s.motorConnected || OnItsSide(e, s.position, c.stepsPerMm))
    {
      TriggeredBySteps(c, s, e);
    }
    if e :| e in c.endstops && e.enabled && e.pin == pin && OnItsSide(e, s.position, c.stepsPerMm) {
      var k :| 0 <= k < |c.endstops| && c.endstops[k] == e;
      assert c.endstops[k].pin == pin && Triggered(c, s, c.endstops[k]);
    }
    if !s.motorConnected {
      var k :| 0 <= k < |c.endstops| && c.endstops[k].enabled && c.endstops[k].pin == pin;
      assert Triggered(c, s, c.endstops[k]);
    }
  }

  /** One enabled endstop on a pin: its bit is the triggered one exactly with the motor off, or with the axis at or
      beyond the trigger position, counted in steps. */
  lemma SingleEndstopPinTells(b: Bench, events: seq<Event>, i: nat, k: nat)
    requires WellWired(b) && Agrees(b) && i < |b.axes| && k < |b.axes[i].config.endstops|
    requires b.axes[i].config.endstops[k].enabled
    requires forall m | 0 <= m < |b.axes[i].config.endstops| && m != k ::
               !b.axes[i].config.endstops[m].enabled
               || b.axes[i].config.endstops[m].pin != b.axes[i].config.endstops[k].pin
    ensures var c, b' := b.axes[i].config, AfterRun(b, events);
            var e, position, connected := c.endstops[k], b'.axes[i].state.position, b'.axes[i].state.motorConnected;
            && e.pin.port < 5 && e.pin.pin < 32
            && (b'.ports[e.pin.port][e.pin.pin] == e.rawWhenTriggered
                <==> !connected
                     || (if e.whenGreaterOrEqual then position as real >= e.triggerMm * c.stepsPerMm
                         else position as real <= e.triggerMm * c.stepsPerMm))
  {
    hide AfterRun, Agrees, WellWired;
    var c := b.axes[i].config;
    var e := c.endstops[k];
    assert c.Valid() && e.pin.Valid();
    forall other | other in c.endstops && other.enabled && other.pin == e.pin ensures other == e {
      var m :| 0 <= m < |c.endstops| && c.endstops[m] == other;
    }
    EndstopPinTells(b, events, i, k);
  }

  /** A pin's bit after a write to a port's set or clear register: outputs named by the write follow it. */
  ghost function NewBit(b: Bench, port: nat, bits: Register, sets: bool, pin: Pin): bool
    requires pin.port < 5 && pin.pin < 32 && port < 5
  {
    if pin.port == port && bits[pin.pin] && b.directions[port][pin.pin] then sets else b.ports[pin.port][pin.pin]
  }

  /** On a wired board a write moves a connected axis whose step pin it raises by one step, down when the direction
      pin's level differs from the inversion and up otherwise. The direction pin's old level counts if both pins are on
      one port and the direction pin is the higher one. */
  lemma WriteStepsTheAxis(b: Bench, port: nat, bits: Register, sets: bool, i: nat)
    requires WellWired(b) && Agrees(b) && port < 5 && i < |b.axes|
    ensures var c, s, s' := b.axes[i].config, b.axes[i].state, AfterEvent(b, Write(port, bits, sets)).axes[i].state;
            && c.Valid()
            && var step, direction := c.stepPin, c.directionPin;
               var level := if direction.port == step.port && direction.pin > step.pin
                            then b.ports[direction.port][direction.pin] else NewBit(b, port, bits, sets, direction);
               && s'.motorConnected == s.motorConnected
               && s'.position == s.position +
                    if s.motorConnected && !b.ports[step.port][step.pin] && NewBit(b, port, bits, sets, step)
                    then (if level != c.invertDirection then -1 else 1) else 0
  {
    hide Wired, Drives, ShownPorts, Notified, AxisAgrees, Agrees;
    assert b.axes[i].config.Valid();
    AfterWrite(b, port, bits, sets, b.axes[i].config.stepPin);
    AfterWrite(b, port, bits, sets, b.axes[i].config.directionPin);
    EventMoves(b, Write(port, bits, sets), i);
    EventKeepsMotor(b, port, bits, sets, i);
  }

  lemma AfterWrite(b: Bench, port: nat, bits: Register, sets: bool, pin: Pin)
    requires port < 5 && pin.Valid()
    ensures Level(b.ports[port := Written(b.ports[port], bits, b.directions[port], sets)], pin)
            == NewBit(b, port, bits, sets, pin)
  {
  }

  lemma EventKeepsMotor(b: Bench, port: nat, bits: Register, sets: bool, i: nat)
    requires WellWired(b) && Agrees(b) && port < 5 && i < |b.axes|
    ensures AfterEvent(b, Write(port, bits, sets)).axes[i].state.motorConnected == b.axes[i].state.motorConnected
  {
    hide Wired, Drives, ShownPorts, Notified;
    StepPinsUndriven(b, i);
    assert AxisAgrees(b.axes[i].config, b.axes[i].state, b.ports);
    WriteMoves(b.axes[i].config, b.axes[i].state, port, b.ports,
               Written(b.ports[port], bits, b.directions[port], sets));
  }

  /** Pins that no enabled endstop owns have the bits written to them; switching a motor writes none of them. */
  lemma OtherPinsFollowWrites(b: Bench, e: Event, pin: Pin)
    requires WellWired(b) && pin.port < 5 && pin.pin < 32
    requires forall i | 0 <= i < |b.axes| :: !Drives(b.axes[i].config, pin)
    ensures AfterEvent(b, e).ports[pin.port][pin.pin]
            == if e.Write? && e.port < 5 then NewBit(b, e.port, e.bits, e.sets, pin) else b.ports[pin.port][pin.pin]
  {
    hide Drives, EndstopLevel, DrivenPorts, Notified, ShownPorts, Wired;
    match e {
      case Write(port, bits, sets) =>
        if port < 5 {
          var b' := AfterEvent(b, e);
          assert Configs(b'.axes) == Configs(b.axes);
          ShownPortsAt(b'.axes, b.ports[port := Written(b.ports[port], bits, b.directions[port], sets)], b.directions,
                       |b.axes|, pin);
          AfterWrite(b, port, bits, sets, pin);
        }
      case Connect(axis, on) =>
        if axis < |b.axes| {
          DrivenPortsAt(b.axes[axis].config, b.axes[axis].state.(motorConnected := on), b.ports, pin);
        }
    }
  }
}
