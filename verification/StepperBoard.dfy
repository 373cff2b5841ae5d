/** The GPIO block and the stepper axes as objects: register writes change port bits in place, notify the axes pin by
    pin, and moving axes write their endstop pins back into the ports. */
module StepperBoard {
  import opened Steppers

  class Gpio {
    /** FIOPIN and FIODIR of the five ports. */
    const pins: array<Register>
    const directions: array<Register>

    ghost predicate Valid()
      reads this
    {
      pins.Length == 5 && directions.Length == 5 && pins != directions
    }

    ghost function Levels(): Ports
      requires Valid()
      reads this, pins
    {
      pins[..]
    }

    constructor ()
      ensures Valid() && fresh(pins) && fresh(directions)
      ensures forall p, b | 0 <= p < PORTS && 0 <= b < PINS :: !pins[p][b] && !directions[p][b]
    {
      pins := new Register[5](_ => seq(32, _ => false));
      directions := new Register[5](_ => seq(32, _ => false));
    }
  }

  /** Rounds to the nearest integer, halves away from zero. */
  function Rounded(x: real): int {
    if x >= 0.0 then (x + 0.5).Floor else -((-x + 0.5).Floor)
  }

  function StepsAt(mm: real, stepsPerMm: real): int {
    Rounded(mm * stepsPerMm)
  }

  /** The initial step count is the nearest to the initial position; half a step counts away from zero. */
  lemma NearestStep(mm: real, stepsPerMm: real)
    ensures var exact, steps := mm * stepsPerMm, StepsAt(mm, stepsPerMm) as real;
            && -0.5 <= steps - exact <= 0.5
            && (steps - exact == 0.5 ==> exact > 0.0) && (steps - exact == -0.5 ==> exact < 0.0)
  {
  }

  ghost predicate DrivesBelow(c: AxisConfig, n: nat, pin: Pin)
    requires n <= |c.endstops|
  {
    exists i | 0 <= i < n :: c.endstops[i].enabled && c.endstops[i].pin == pin
  }

  lemma {:induction false} DefaultIsIrrelevant(endstops: seq<Endstop>, pin: Pin, default: bool)
    requires exists i | 0 <= i < |endstops| :: endstops[i].enabled && endstops[i].pin == pin
    ensures RawWhenTriggered(endstops, pin, default) == RawWhenTriggered(endstops, pin, true)
  {
    var last := |endstops| - 1;
    if !(endstops[last].enabled && endstops[last].pin == pin) {
      DefaultIsIrrelevant(endstops[..last], pin, default);
    }
  }

  class StepperAxis {
    const config: AxisConfig
    const gpio: Gpio
    const initialPosition: int
    var position: int
    var stepHigh: bool
    var directionHigh: bool
    var motorConnected: bool

    ghost predicate Valid()
      reads this, gpio
    {
      config.Valid() && gpio.Valid()
    }

    function State(): AxisState
      reads this
    {
      AxisState(position, stepHigh, directionHigh, motorConnected)
    }

    constructor (config: AxisConfig, gpio: Gpio, motorConnected: bool, initialMm: real)
      requires gpio.Valid() && config.stepPin.Valid() && config.directionPin.Valid()
      requires forall i | 0 <= i < |config.endstops| :: config.endstops[i].pin.Valid()
      modifies gpio.pins
      ensures Valid() && this.gpio == gpio
      ensures this.config == config.(stepsPerMm := if config.stepsPerMm > 0.0 then config.stepsPerMm else 1.0)
      ensures State() == AxisState(StepsAt(initialMm, this.config.stepsPerMm),
                                   old(Level(gpio.Levels(), config.stepPin)),
                                   old(Level(gpio.Levels(), config.directionPin)), motorConnected)
      ensures gpio.Levels() == DrivenPorts(this.config, State(), old(gpio.Levels()))
    {
      hide StepsAt, DrivenPorts;
      var scale := if config.stepsPerMm > 0.0 then config.stepsPerMm else 1.0;
      assert gpio.pins[config.stepPin.port][config.stepPin.pin] == Level(gpio.Levels(), config.stepPin);
      assert gpio.pins[config.directionPin.port][config.directionPin.pin] == Level(gpio.Levels(), config.directionPin);
      this.config := config.(stepsPerMm := scale);
      this.gpio := gpio;
      this.initialPosition := StepsAt(initialMm, scale);
      this.position := StepsAt(initialMm, scale);
      this.stepHigh := gpio.pins[config.stepPin.port][config.stepPin.pin];
      this.directionHigh := gpio.pins[config.directionPin.port][config.directionPin.pin];
      this.motorConnected := motorConnected;
      new;
      UpdateEndstopPin();
    }

    method EndstopTriggered(e: Endstop) returns (triggered: bool)
      requires config.Valid()
      ensures triggered == Triggered(config, State(), e)
      ensures triggered <==> e.enabled && (!motorConnected || OnItsSide(e, position, config.stepsPerMm))
    {
      TriggeredBySteps(config, State(), e);
      if !e.enabled {
        return false;
      }
      if !motorConnected {
        return true;
      }
      var mm := position as real / config.stepsPerMm;
      if e.whenGreaterOrEqual {
        return mm >= e.triggerMm;
      }
      return mm <= e.triggerMm;
    }

    method HandledBefore(i: nat) returns (handled: bool)
      requires i < |config.endstops|
      ensures handled <==> DrivesBelow(config, i, config.endstops[i].pin)
    {
      handled := false;
      var j := 0;
      while j < i && !handled
        invariant 0 <= j <= i
        invariant handled <==> DrivesBelow(config, j, config.endstops[i].pin)
      {
        handled := config.endstops[j].enabled && config.endstops[j].pin == config.endstops[i].pin;
        j := j + 1;
      }
    }

    /** The level for the pin of endstop i, over all enabled endstops that share it. */
    method SharedLevel(i: nat) returns (high: bool)
      requires config.Valid() && i < |config.endstops| && config.endstops[i].enabled
      ensures high == EndstopLevel(config, State(), config.endstops[i].pin)
    {
      var pin := config.endstops[i].pin;
      var anyTriggered, raw := false, config.endstops[i].rawWhenTriggered;
      var j := 0;
      while j < |config.endstops|
        invariant 0 <= j <= |config.endstops|
        invariant anyTriggered <==> exists k | 0 <= k < j ::
                                      config.endstops[k].pin == pin && Triggered(config, State(), config.endstops[k])
        invariant raw == RawWhenTriggered(config.endstops[..j], pin, config.endstops[i].rawWhenTriggered)
      {
        var e := config.endstops[j];
        assert config.endstops[..j + 1][..j] == config.endstops[..j];
        if e.enabled && e.pin == pin {
          raw := e.rawWhenTriggered;
          var triggered := EndstopTriggered(e);
          anyTriggered := anyTriggered || triggered;
        }
        j := j + 1;
      }
      assert config.endstops[..j] == config.endstops;
      DefaultIsIrrelevant(config.endstops, pin, config.endstops[i].rawWhenTriggered);
      high := if anyTriggered then raw else !raw;
    }

    method UpdateEndstopPin()
      requires Valid()
      modifies gpio.pins
      ensures gpio.Levels() == DrivenPorts(config, State(), old(gpio.Levels()))
    {
      hide EndstopLevel;
      var i := 0;
      while i < |config.endstops|
        invariant 0 <= i <= |config.endstops|
        invariant forall p, b | 0 <= p < PORTS && 0 <= b < PINS ::
                    gpio.pins[p][b]
                    == if DrivesBelow(config, i, Pin(p, b)) then EndstopLevel(config, State(), Pin(p, b))
                       else old(gpio.pins[p][b])
      {
        var owner := config.endstops[i];
        if owner.enabled {
          var handled := HandledBefore(i);
          if !handled {
            var high := SharedLevel(i);
            gpio.pins[owner.pin.port] := gpio.pins[owner.pin.port][owner.pin.pin := high];
          }
        }
        i := i + 1;
      }
      assert forall p | 0 <= p < PORTS ::
          gpio.Levels()[p] == DrivenPorts(config, State(), old(gpio.Levels()))[p] by {
        assert forall pin :: DrivesBelow(config, i, pin) == Drives(config, pin);
      }
    }

    method OnGpioLevelChanged(pin: Pin, high: bool)
      requires Valid()
      modifies this, gpio.pins
      ensures State() == OnPin(config, old(State()), pin, high)
      ensures gpio.Levels() == if Moves(config, old(State()), pin, high)
                               then DrivenPorts(config, State(), old(gpio.Levels())) else old(gpio.Levels())
    {
      if pin == config.directionPin {
        directionHigh := high;
        return;
      }
      if pin != config.stepPin {
        return;
      }
      var risingEdge := high && !stepHigh;
      stepHigh := high;
      if !risingEdge || !motorConnected {
        return;
      }
      position := position + (if directionHigh != config.invertDirection then -1 else 1);
      UpdateEndstopPin();
    }

    method SetMotorConnected(connected: bool)
      requires Valid()
      modifies this`motorConnected, gpio.pins
      ensures State() == old(State()).(motorConnected := connected)
      ensures gpio.Levels() == DrivenPorts(config, State(), old(gpio.Levels()))
    {
      motorConnected := connected;
      UpdateEndstopPin();
    }

    /** Puts the axis back to its initial position and forgets the pin levels. */
    method ResetPosition()
      requires Valid()
      modifies this, gpio.pins
      ensures State() == AxisState(initialPosition, false, false, old(motorConnected))
      ensures gpio.Levels() == DrivenPorts(config, State(), old(gpio.Levels()))
    {
      position := initialPosition;
      stepHigh := false;
      directionHigh := false;
      UpdateEndstopPin();
    }
  }

  /** Every enabled endstop pin shows its axis. */
  ghost predicate Shown(configs: seq<AxisConfig>, states: seq<AxisState>, levels: Ports)
    requires |configs| == |states| && forall i | 0 <= i < |configs| :: configs[i].Valid()
  {
    forall i, pin: Pin | 0 <= i < |configs| && configs[i].Valid() && pin.Valid() && Drives(configs[i], pin) ::
      Level(levels, pin) == EndstopLevel(configs[i], states[i], pin)
  }

  /** The pins no endstop drives are as given. */
  ghost predicate OthersAre(configs: seq<AxisConfig>, levels: Ports, base: Ports) {
    forall pin: Pin | pin.Valid() && (forall i | 0 <= i < |configs| :: !Drives(configs[i], pin)) ::
      Level(levels, pin) == Level(base, pin)
  }

  /** One axis moved or not: its own endstop pins show it, those of other axes and all other pins stay. */
  lemma OneAxisTold(configs: seq<AxisConfig>, states: seq<AxisState>, directions: Ports, levels: Ports, base: Ports,
                    j: nat, s: AxisState, levels': Ports)
    requires Wired(directions, configs) && |configs| == |states| && j < |configs|
    requires Shown(configs, states, levels) && OthersAre(configs, levels, base)
    requires levels' == DrivenPorts(configs[j], s, levels) ||
             (levels' == levels && s.position == states[j].position && s.motorConnected == states[j].motorConnected)
    ensures Shown(configs, states[j := s], levels') && OthersAre(configs, levels', base)
  {
    hide EndstopLevel, DrivenPorts, Drives, Level;
    if levels' == levels && s.position == states[j].position && s.motorConnected == states[j].motorConnected {
      assert forall pin: Pin :: EndstopLevel(configs[j], s, pin) == EndstopLevel(configs[j], states[j], pin) by {
        LevelOfPosition(configs[j], s, states[j]);
      }
    } else {
      forall pin: Pin | pin.Valid()
        ensures Level(levels', pin) == if Drives(configs[j], pin) then EndstopLevel(configs[j], s, pin)
                                       else Level(levels, pin)
      {
        DrivenPortsAt(configs[j], s, levels, pin);
      }
    }
  }

  lemma LevelOfPosition(c: AxisConfig, s: AxisState, t: AxisState)
    requires c.stepsPerMm > 0.0 && s.position == t.position && s.motorConnected == t.motorConnected
    ensures forall pin: Pin :: EndstopLevel(c, s, pin) == EndstopLevel(c, t, pin)
  {
    assert forall e: Endstop :: Triggered(c, s, e) == Triggered(c, t, e);
  }

  class Board {
    const gpio: Gpio
    var axes: seq<StepperAxis>

    ghost predicate Valid()
      reads this, gpio, axes
    {
      && gpio.Valid()
      && (forall i | 0 <= i < |axes| :: axes[i].gpio == gpio && axes[i].config.Valid())
      && forall i, j | 0 <= i < j < |axes| :: axes[i] != axes[j]
    }

    constructor ()
      ensures Valid() && axes == [] && fresh(gpio) && fresh(gpio.pins)
    {
      gpio := new Gpio();
      axes := [];
    }

    method AddAxis(config: AxisConfig, motorConnected: bool, initialMm: real) returns (index: nat)
      requires Valid() && config.stepPin.Valid() && config.directionPin.Valid()
      requires forall i | 0 <= i < |config.endstops| :: config.endstops[i].pin.Valid()
      modifies this, gpio.pins
      ensures Valid() && index == |old(axes)| && |axes| == index + 1 && axes[..index] == old(axes) && fresh(axes[index])
      ensures axes[index].config == config.(stepsPerMm := if config.stepsPerMm > 0.0 then config.stepsPerMm else 1.0)
      ensures Remembers(axes[index].config, axes[index].State(), old(gpio.Levels()))
      ensures axes[index].position == StepsAt(initialMm, axes[index].config.stepsPerMm)
      ensures axes[index].motorConnected == motorConnected
      ensures gpio.Levels() == DrivenPorts(axes[index].config, axes[index].State(), old(gpio.Levels()))
    {
      hide DrivenPorts, StepsAt;
      var axis := new StepperAxis(config, gpio, motorConnected, initialMm);
      index := |axes|;
      axes := axes + [axis];
    }

    ghost function AxisConfigs(): (configs: seq<AxisConfig>)
      reads this`axes
      ensures |configs| == |axes| && forall i | 0 <= i < |axes| :: configs[i] == axes[i].config
    {
      ConfigsOf(axes)
    }

    ghost function States(): (states: seq<AxisState>)
      reads this`axes, axes
      ensures |states| == |axes| && forall i | 0 <= i < |axes| :: states[i] == axes[i].State()
    {
      StatesOf(axes)
    }

    /** Tells every axis, in order, about one pin. */
    method OnGpioLevelChanged(pin: Pin, high: bool)
      requires Valid()
      modifies axes, gpio.pins
      ensures States() == Told(AxisConfigs(), old(States()), pin, high, |axes|)
      ensures gpio.Levels() == LevelsTold(AxisConfigs(), old(States()), old(gpio.Levels()), pin, high, |axes|)
    {
      hide DrivenPorts, OnPin, Moves, StatesOf, ConfigsOf, LevelsTold, Told;
      ghost var configs, start, levels := AxisConfigs(), States(), gpio.Levels();
      LevelsToldStart(configs, start, levels, pin, high);
      ToldStart(configs, start, pin, high);
      var i := 0;
      while i < |axes|
        invariant 0 <= i <= |axes|
        invariant States() == Told(configs, start, pin, high, i)
        invariant gpio.Levels() == LevelsTold(configs, start, levels, pin, high, i)
      {
        ghost var states := States();
        LevelsToldStep(configs, start, levels, pin, high, i);
        ToldStep(configs, start, pin, high, i);
        axes[i].OnGpioLevelChanged(pin, high);
        assert forall j | 0 <= j < |axes| && j != i :: axes[j].State() == states[j];
        assert States() == states[i := axes[i].State()];
        i := i + 1;
      }
    }

    ghost function Snapshot(): Bench
      requires gpio.Valid()
      reads this, gpio, gpio.pins, gpio.directions, axes
    {
      Bench(gpio.Levels(), gpio.directions[..], Paired(AxisConfigs(), States()))
    }

    /** Tells the axes about every changed pin of a port, lowest pin first. */
    method NotifyGpioChanges(port: nat, previous: Register, current: Register)
      requires Valid()
      modifies axes, gpio.pins
      ensures States() == NotifiedAll(AxisConfigs(), old(States()), port, previous, current, PINS)
      ensures gpio.Levels()
              == NotifiedLevels(AxisConfigs(), old(States()), old(gpio.Levels()), port, previous, current, PINS)
    {
      hide DrivenPorts, OnPin, StatesOf, ConfigsOf, Notified, NotifiedAll, NotifiedLevels, LevelsTold, Told;
      ghost var configs, start, levels := AxisConfigs(), States(), gpio.Levels();
      NotifiedStart(configs, start, port, previous, current);
      NotifiedLevelsStart(configs, start, levels, port, previous, current);
      var pin := 0;
      while pin < PINS
        invariant 0 <= pin <= PINS
        invariant States() == NotifiedAll(configs, start, port, previous, current, pin)
        invariant gpio.Levels() == NotifiedLevels(configs, start, levels, port, previous, current, pin)
      {
        NotifiedStep(configs, start, port, previous, current, pin);
        NotifiedLevelsStep(configs, start, levels, port, previous, current, pin);
        if previous[pin] != current[pin] {
          OnGpioLevelChanged(Pin(port, pin), current[pin]);
        }
        pin := pin + 1;
      }
    }

    /** A write to a port's set or clear register, on any board. On a well-wired board whose axes and pins agree, that
        is one event of the bench. */
    method Apply(port: nat, bits: Register, sets: bool)
      requires Valid()
      modifies axes, gpio.pins
      ensures port >= PORTS ==> Snapshot() == old(Snapshot())
      ensures port < PORTS ==>
                var ports := old(gpio.Levels());
                var previous := ports[port];
                var current := Written(previous, bits, gpio.directions[port], sets);
                && States() == NotifiedAll(AxisConfigs(), old(States()), port, previous, current, PINS)
                && gpio.Levels() == NotifiedLevels(AxisConfigs(), old(States()), ports[port := current], port, previous,
                                                   current, PINS)
      ensures old(WellWired(Snapshot()) && Agrees(Snapshot())) ==>
                && WellWired(Snapshot()) && Agrees(Snapshot())
                && Snapshot() == AfterEvent(old(Snapshot()), Write(port, bits, sets))
    {
      hide Wired, DrivenPorts, StatesOf, ConfigsOf, NotifiedLevels, AxisAgrees, ShownPorts, AfterEvent;
      ghost var b := Snapshot();
      if port >= PORTS {
        if WellWired(b) && Agrees(b) {
          NoSuchTarget(b, Write(port, bits, sets));
        }
        return;
      }
      ghost var configs, states := AxisConfigs(), States();
      var previous := gpio.pins[port];
      var drivenBits := And(bits, gpio.directions[port]);
      gpio.pins[port] := if sets then Or(previous, drivenBits) else AndNot(previous, drivenBits);
      ghost var base := gpio.Levels();
      WrittenBits(previous, bits, gpio.directions[port], sets);
      assert base == b.ports[port := Written(previous, bits, gpio.directions[port], sets)];
      NotifyGpioChanges(port, previous, gpio.pins[port]);
      if WellWired(b) && Agrees(b) {
        WriteIsEvent(b, port, bits, sets, configs, states);
        EventKeepsAgreement(b, Write(port, bits, sets));
      }
    }

    /** Switches one axis' motor; an axis number that does not exist is refused. */
    method SetMotorConnected(axis: nat, connected: bool) returns (ok: bool)
      requires Valid()
      modifies axes, gpio.pins
      ensures ok <==> axis < |axes|
      ensures !ok ==> Snapshot() == old(Snapshot())
      ensures ok ==>
                && States() == old(States())[axis := old(States())[axis].(motorConnected := connected)]
                && gpio.Levels() == DrivenPorts(axes[axis].config, States()[axis], old(gpio.Levels()))
      ensures old(WellWired(Snapshot()) && Agrees(Snapshot())) ==>
                && WellWired(Snapshot()) && Agrees(Snapshot())
                && Snapshot() == AfterEvent(old(Snapshot()), Connect(axis, connected))
    {
      hide Wired, DrivenPorts, StatesOf, ConfigsOf, AxisAgrees, AfterEvent;
      ghost var b, states := Snapshot(), States();
      if WellWired(b) && Agrees(b) {
        EventKeepsAgreement(b, Connect(axis, connected));
        ConnectIsEvent(b, axis, connected);
      }
      if axis >= |axes| {
        return false;
      }
      axes[axis].SetMotorConnected(connected);
      assert States() == states[axis := axes[axis].State()];
      assert Snapshot().axes == b.axes[axis := Axis(axes[axis].config, axes[axis].State())];
      return true;
    }
  }

  function And(a: Register, b: Register): Register {
    seq(32, i requires 0 <= i < 32 => a[i] && b[i])
  }

  function Or(a: Register, b: Register): Register {
    seq(32, i requires 0 <= i < 32 => a[i] || b[i])
  }

  function AndNot(a: Register, b: Register): Register {
    seq(32, i requires 0 <= i < 32 => a[i] && !b[i])
  }

  lemma WrittenBits(previous: Register, bits: Register, direction: Register, sets: bool)
    ensures Written(previous, bits, direction, sets)
            == if sets then Or(previous, And(bits, direction)) else AndNot(previous, And(bits, direction))
  {
  }

  ghost function Paired(configs: seq<AxisConfig>, states: seq<AxisState>): (axes: seq<Axis>)
    requires |configs| == |states|
    ensures |axes| == |configs| && forall i | 0 <= i < |axes| :: axes[i] == Axis(configs[i], states[i])
  {
    seq(|configs|, i requires 0 <= i < |configs| => Axis(configs[i], states[i]))
  }

  ghost function NotifiedAll(configs: seq<AxisConfig>, states: seq<AxisState>, port: nat, previous: Register,
                             current: Register, n: nat): (told: seq<AxisState>)
    requires |configs| == |states| && n <= PINS
    ensures |told| == |states|
    ensures forall j | 0 <= j < |told| :: told[j] == Notified(configs[j], states[j], port, previous, current, n)
  {
    seq(|states|, j requires 0 <= j < |states| => Notified(configs[j], states[j], port, previous, current, n))
  }

  /** The pins after the first n axes were told: those that moved have driven their endstop pins, in order. */
  ghost function LevelsTold(configs: seq<AxisConfig>, states: seq<AxisState>, levels: Ports, pin: Pin, high: bool,
                            n: nat): Ports
    requires n <= |configs| == |states| && forall i | 0 <= i < |configs| :: configs[i].Valid()
  {
    if n == 0 then levels
    else
      var c, s, l := configs[n - 1], states[n - 1], LevelsTold(configs, states, levels, pin, high, n - 1);
      if Moves(c, s, pin, high) then DrivenPorts(c, OnPin(c, s, pin, high), l) else l
  }

  lemma LevelsToldStart(configs: seq<AxisConfig>, states: seq<AxisState>, levels: Ports, pin: Pin, high: bool)
    requires |configs| == |states| && forall i | 0 <= i < |configs| :: configs[i].Valid()
    ensures LevelsTold(configs, states, levels, pin, high, 0) == levels
  {
  }

  lemma LevelsToldStep(configs: seq<AxisConfig>, states: seq<AxisState>, levels: Ports, pin: Pin, high: bool, n: nat)
    requires n < |configs| == |states| && forall i | 0 <= i < |configs| :: configs[i].Valid()
    ensures var c, s, l := configs[n], states[n], LevelsTold(configs, states, levels, pin, high, n);
            LevelsTold(configs, states, levels, pin, high, n + 1)
            == if Moves(c, s, pin, high) then DrivenPorts(c, OnPin(c, s, pin, high), l) else l
  {
    hide DrivenPorts, Moves, OnPin;
  }

  /** The pins after the changed pins below n were told, in ascending order. */
  ghost function NotifiedLevels(configs: seq<AxisConfig>, states: seq<AxisState>, levels: Ports, port: nat,
                                previous: Register, current: Register, n: nat): Ports
    requires |configs| == |states| && n <= PINS && forall i | 0 <= i < |configs| :: configs[i].Valid()
  {
    if n == 0 then levels
    else
      var l := NotifiedLevels(configs, states, levels, port, previous, current, n - 1);
      if previous[n - 1] == current[n - 1] then l
      else LevelsTold(configs, NotifiedAll(configs, states, port, previous, current, n - 1), l, Pin(port, n - 1),
                      current[n - 1], |configs|)
  }

  lemma NotifiedLevelsStart(configs: seq<AxisConfig>, states: seq<AxisState>, levels: Ports, port: nat,
                            previous: Register, current: Register)
    requires |configs| == |states| && forall i | 0 <= i < |configs| :: configs[i].Valid()
    ensures NotifiedLevels(configs, states, levels, port, previous, current, 0) == levels
  {
  }

  lemma NotifiedLevelsStep(configs: seq<AxisConfig>, states: seq<AxisState>, levels: Ports, port: nat,
                           previous: Register, current: Register, n: nat)
    requires |configs| == |states| && n < PINS && forall i | 0 <= i < |configs| :: configs[i].Valid()
    ensures var l := NotifiedLevels(configs, states, levels, port, previous, current, n);
            NotifiedLevels(configs, states, levels, port, previous, current, n + 1)
            == if previous[n] == current[n] then l
               else LevelsTold(configs, NotifiedAll(configs, states, port, previous, current, n), l, Pin(port, n),
                               current[n], |configs|)
  {
    hide LevelsTold, NotifiedAll;
  }

  /** On a well-wired board, telling the axes about a pin keeps all endstop pins up to date. */
  lemma {:induction false} TellingShows(configs: seq<AxisConfig>, states: seq<AxisState>, directions: Ports,
                                        levels: Ports, base: Ports, pin: Pin, high: bool, n: nat)
    requires Wired(directions, configs) && n <= |configs| == |states|
    requires forall i | 0 <= i < |configs| :: configs[i].Valid()
    requires Shown(configs, states, levels) && OthersAre(configs, levels, base)
    ensures var levels' := LevelsTold(configs, states, levels, pin, high, n);
            Shown(configs, Told(configs, states, pin, high, n), levels') && OthersAre(configs, levels', base)
  {
    hide Wired, Shown, OthersAre, DrivenPorts, OnPin, Moves, LevelsTold;
    var told := Told(configs, states, pin, high, n);
    if n == 0 {
      LevelsToldStart(configs, states, levels, pin, high);
      assert told == states;
    } else {
      TellingShows(configs, states, directions, levels, base, pin, high, n - 1);
      LevelsToldStep(configs, states, levels, pin, high, n - 1);
      var before := Told(configs, states, pin, high, n - 1);
      var c, s := configs[n - 1], states[n - 1];
      OnPinKeeps(c, s, pin, high);
      OneAxisTold(configs, before, directions, LevelsTold(configs, states, levels, pin, high, n - 1), base, n - 1,
                  OnPin(c, s, pin, high), LevelsTold(configs, states, levels, pin, high, n));
      assert told == before[n - 1 := OnPin(c, s, pin, high)];
    }
  }

  lemma {:induction false} NotifyingShows(configs: seq<AxisConfig>, states: seq<AxisState>, directions: Ports,
                                          levels: Ports, port: nat, previous: Register, current: Register, n: nat)
    requires Wired(directions, configs) && |configs| == |states| && n <= PINS
    requires forall i | 0 <= i < |configs| :: configs[i].Valid()
    requires Shown(configs, states, levels)
    ensures var levels' := NotifiedLevels(configs, states, levels, port, previous, current, n);
            && Shown(configs, NotifiedAll(configs, states, port, previous, current, n), levels')
            && OthersAre(configs, levels', levels)
  {
    hide Wired, Shown, LevelsTold, Told, NotifiedAll, Drives;
    if n == 0 {
      NotifiedStart(configs, states, port, previous, current);
    } else {
      NotifyingShows(configs, states, directions, levels, port, previous, current, n - 1);
      NotifiedStep(configs, states, port, previous, current, n - 1);
      if previous[n - 1] != current[n - 1] {
        TellingShows(configs, NotifiedAll(configs, states, port, previous, current, n - 1), directions,
                     NotifiedLevels(configs, states, levels, port, previous, current, n - 1), levels,
                     Pin(port, n - 1), current[n - 1], |configs|);
      }
    }
  }

  /** What a register write does to a well-wired board whose axes and pins agree is one event of the bench. */
  lemma WriteIsEvent(b: Bench, port: nat, bits: Register, sets: bool, configs: seq<AxisConfig>, states: seq<AxisState>)
    requires WellWired(b) && Agrees(b) && port < PORTS && |configs| == |states|
    requires configs == Configs(b.axes) && b.axes == Paired(configs, states)
    ensures var previous := b.ports[port];
            var current := Written(previous, bits, b.directions[port], sets);
            var told := NotifiedAll(configs, states, port, previous, current, PINS);
            var levels := NotifiedLevels(configs, states, b.ports[port := current], port, previous, current, PINS);
            AfterEvent(b, Write(port, bits, sets)) == Bench(levels, b.directions, Paired(configs, told))
  {
    hide Wired, Shown, OthersAre, Drives, DrivenPorts, NotifiedLevels, NotifiedAll, ShownPorts, Notified, AxisAgrees;
    var previous := b.ports[port];
    var current := Written(previous, bits, b.directions[port], sets);
    var base := b.ports[port := current];
    InputsStay(b, port, bits, sets, configs, states);
    NotifyingShows(configs, states, b.directions, base, port, previous, current, PINS);
    NotifiedPaired(b, port, bits, sets, configs, states);
    ShownIsUnique(b.directions, configs, NotifiedAll(configs, states, port, previous, current, PINS),
                  NotifiedLevels(configs, states, base, port, previous, current, PINS), base);
  }

  lemma ConnectIsEvent(b: Bench, axis: nat, on: bool)
    requires WellWired(b)
    ensures AfterEvent(b, Connect(axis, on))
            == if axis >= |b.axes| then b
               else
                 var a := b.axes[axis].(state := b.axes[axis].state.(motorConnected := on));
                 Bench(DrivenPorts(a.config, a.state, b.ports), b.directions, b.axes[axis := a])
  {
    hide DrivenPorts, Wired;
  }

  lemma NotifiedStart(configs: seq<AxisConfig>, states: seq<AxisState>, port: nat, previous: Register,
                      current: Register)
    requires |configs| == |states|
    ensures NotifiedAll(configs, states, port, previous, current, 0) == states
  {
  }

  lemma NotifiedStep(configs: seq<AxisConfig>, states: seq<AxisState>, port: nat, previous: Register,
                     current: Register, n: nat)
    requires |configs| == |states| && n < PINS
    ensures var now := NotifiedAll(configs, states, port, previous, current, n);
            NotifiedAll(configs, states, port, previous, current, n + 1)
            == if previous[n] == current[n] then now else Told(configs, now, Pin(port, n), current[n], |configs|)
  {
  }

  /** A register write leaves the endstop pins, which are inputs, as they are. */
  lemma InputsStay(b: Bench, port: nat, bits: Register, sets: bool, configs: seq<AxisConfig>, states: seq<AxisState>)
    requires WellWired(b) && Agrees(b) && port < PORTS && |configs| == |states|
    requires configs == Configs(b.axes) && b.axes == Paired(configs, states)
    ensures var base := b.ports[port := Written(b.ports[port], bits, b.directions[port], sets)];
            Shown(configs, states, base) && OthersAre(configs, base, base)
  {
    hide EndstopLevel, Drives;
    var base := b.ports[port := Written(b.ports[port], bits, b.directions[port], sets)];
    forall i, pin: Pin | 0 <= i < |configs| && pin.Valid() && Drives(configs[i], pin)
      ensures Level(base, pin) == EndstopLevel(configs[i], states[i], pin)
    {
      assert AxisAgrees(b.axes[i].config, b.axes[i].state, b.ports);
      assert !Level(b.directions, pin);
    }
  }

  lemma NotifiedPaired(b: Bench, port: nat, bits: Register, sets: bool, configs: seq<AxisConfig>,
                       states: seq<AxisState>)
    requires WellWired(b) && port < PORTS && |configs| == |states|
    requires configs == Configs(b.axes) && b.axes == Paired(configs, states)
    ensures AfterEvent(b, Write(port, bits, sets)).axes
            == Paired(configs, NotifiedAll(configs, states, port, b.ports[port],
                                           Written(b.ports[port], bits, b.directions[port], sets), PINS))
  {
    hide Notified, ShownPorts, Wired;
  }

  /** The endstop pins that show the axes and the other pins given by `base` determine the ports. */
  lemma ShownIsUnique(directions: Ports, configs: seq<AxisConfig>, states: seq<AxisState>, levels: Ports, base: Ports)
    requires Wired(directions, configs) && |configs| == |states|
    requires forall i | 0 <= i < |configs| :: configs[i].Valid()
    requires Shown(configs, states, levels) && OthersAre(configs, levels, base)
    ensures levels == ShownPorts(Paired(configs, states), base, |configs|)
  {
    hide EndstopLevel, Drives, Wired, ShownPorts;
    var axes := Paired(configs, states);
    var shown := ShownPorts(axes, base, |configs|);
    assert Configs(axes) == configs;
    forall p, q | 0 <= p < PORTS && 0 <= q < PINS
      ensures levels[p][q] == shown[p][q]
    {
      var pin := Pin(p, q);
      ShownPortsAt(axes, base, directions, |configs|, pin);
      if i :| 0 <= i < |configs| && Drives(configs[i], pin) {
        assert Drives(axes[i].config, pin);
      }
      assert Level(levels, pin) == Level(shown, pin);
    }
    forall p | 0 <= p < PORTS
      ensures levels[p] == shown[p]
    {
    }
  }

  lemma OnPinKeeps(c: AxisConfig, s: AxisState, pin: Pin, high: bool)
    ensures var t := OnPin(c, s, pin, high);
            !Moves(c, s, pin, high) ==> t.position == s.position && t.motorConnected == s.motorConnected
  {
  }

  ghost function Told(configs: seq<AxisConfig>, states: seq<AxisState>, pin: Pin, high: bool, n: nat)
    : (told: seq<AxisState>)
    requires |configs| == |states| && n <= |states|
    ensures |told| == |states|
    ensures forall j | 0 <= j < |told| ::
              told[j] == if j < n then OnPin(configs[j], states[j], pin, high) else states[j]
  {
    seq(|states|, j requires 0 <= j < |states| => if j < n then OnPin(configs[j], states[j], pin, high) else states[j])
  }

  lemma ToldStart(configs: seq<AxisConfig>, states: seq<AxisState>, pin: Pin, high: bool)
    requires |configs| == |states|
    ensures Told(configs, states, pin, high, 0) == states
  {
  }

  lemma ToldStep(configs: seq<AxisConfig>, states: seq<AxisState>, pin: Pin, high: bool, n: nat)
    requires n < |configs| == |states|
    ensures Told(configs, states, pin, high, n + 1)
            == Told(configs, states, pin, high, n)[n := OnPin(configs[n], states[n], pin, high)]
  {
    hide OnPin;
  }

  ghost function ConfigsOf(axes: seq<StepperAxis>): (configs: seq<AxisConfig>)
    ensures |configs| == |axes| && forall i | 0 <= i < |axes| :: configs[i] == axes[i].config
  {
    if axes == [] then [] else ConfigsOf(axes[..|axes| - 1]) + [axes[|axes| - 1].config]
  }

  ghost function StatesOf(axes: seq<StepperAxis>): (states: seq<AxisState>)
    reads axes
    ensures |states| == |axes| && forall i | 0 <= i < |axes| :: states[i] == axes[i].State()
  {
    if axes == [] then [] else StatesOf(axes[..|axes| - 1]) + [axes[|axes| - 1].State()]
  }
}
