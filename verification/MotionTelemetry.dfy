/** The motion telemetry emitter: it watches the axes and the spindle on every tick and throttles the samples it sends,
    without ever leaving its listener with a stale resting position. */
module MotionTelemetry {
  import opened Options

  const MAX_STOCK_AXIS_COUNT: nat := 5
  const SPEED_WINDOW_US: nat := 100_000
  const RPM_STEP: real := 10.0
  const SPINNING_RPM: real := 0.5
  const VISIBLE_SPEED: real := 0.05
  const US_PER_MINUTE: real := 60_000_000.0

  /** One axis as the steppers show it: its step count and the position that stands for. */
  datatype Axis = Axis(steps: int, mm: real)

  /** What is there to see, the simulated time, and the host's steady clock, which counts when running in real time. */
  datatype Reading = Reading(axes: seq<Axis>, actualRpm: real, targetRpm: real, nowUs: nat, realtime: bool, wallNs: int)

  datatype Sample = Sample(sequence: nat, timeUs: nat, axes: seq<Axis>, actualRpm: real, targetRpm: real,
                           speeds: seq<real>)

  datatype Position = Position(timeUs: nat, positions: seq<real>)

  datatype Telemetry = Telemetry(intervalTicks: nat, intervalUs: nat, ticksSinceEmit: nat, nextSequence: nat,
                                 lastObserved: seq<int>, emittedRpm: Option<real>, emittedTarget: Option<real>,
                                 emittedTime: Option<nat>, emittedWall: Option<int>, emittedSteps: Option<seq<int>>,
                                 history: seq<Position>, hadMotion: bool)

  /* ----- Readings ----- */

  function Observable(axes: seq<Axis>): seq<Axis> {
    if |axes| <= MAX_STOCK_AXIS_COUNT then axes else axes[..MAX_STOCK_AXIS_COUNT]
  }

  function StepsOf(axes: seq<Axis>): (steps: seq<int>)
    ensures |steps| == |axes| && forall i | 0 <= i < |axes| :: steps[i] == axes[i].steps
  {
    seq(|axes|, i requires 0 <= i < |axes| => axes[i].steps)
  }

  function PositionsOf(axes: seq<Axis>): (positions: seq<real>)
    ensures |positions| == |axes| && forall i | 0 <= i < |axes| :: positions[i] == axes[i].mm
  {
    seq(|axes|, i requires 0 <= i < |axes| => axes[i].mm)
  }

  function Steps(r: Reading): seq<int> {
    StepsOf(Observable(r.axes))
  }

  function Distance(a: real, b: real): (d: real)
    ensures d >= 0.0
  {
    if a >= b then a - b else b - a
  }

  /* ----- What an observation decides ----- */

  predicate Baseline(s: Telemetry, r: Reading) {
    s.lastObserved == [] && Steps(r) != []
  }

  predicate SpindleChanged(emittedRpm: Option<real>, emittedTarget: Option<real>, r: Reading) {
    emittedRpm.None? || Distance(r.actualRpm, emittedRpm.value) >= RPM_STEP
    || (r.actualRpm > SPINNING_RPM) != (emittedRpm.value > SPINNING_RPM)
    || emittedTarget.None? || Distance(r.targetRpm, emittedTarget.value) >= RPM_STEP
  }

  predicate TimeElapsed(emittedTime: Option<nat>, intervalUs: nat, now: nat) {
    emittedTime.None? || now < emittedTime.value || now - emittedTime.value >= intervalUs
  }

  predicate WallTimeElapsed(emittedWall: Option<int>, intervalUs: nat, wallNs: int) {
    emittedWall.None? || wallNs - emittedWall.value >= intervalUs * 1000
  }

  predicate Due(s: Telemetry, r: Reading) {
    if r.realtime then WallTimeElapsed(s.emittedWall, s.intervalUs, r.wallNs)
    else TimeElapsed(s.emittedTime, s.intervalUs, r.nowUs)
  }

  /** A move may also be reported on the number of observations since the last sample; rest only on time. */
  predicate IntervalElapsed(s: Telemetry, r: Reading, ticks: nat) {
    Due(s, r) || (Steps(r) != s.lastObserved && ticks >= s.intervalTicks)
  }

  /** What has been emitted tells the listener everything that matters of a reading. */
  predicate Settled(s: Telemetry, r: Reading) {
    s.emittedSteps == Some(Steps(r)) && !s.hadMotion
    && s.emittedRpm.Some? && Distance(r.actualRpm, s.emittedRpm.value) < RPM_STEP
    && s.emittedTarget.Some? && Distance(r.targetRpm, s.emittedTarget.value) < RPM_STEP
  }

  /* ----- Speeds ----- */

  function Cutoff(now: nat): nat {
    if now > SPEED_WINDOW_US then now - SPEED_WINDOW_US else 0
  }

  /** The history without the leading samples that a later one at or before the cutoff makes superfluous. */
  function Trimmed(history: seq<Position>, cutoff: nat): (h: seq<Position>)
    ensures history != [] ==> h != []
  {
    if |history| > 1 && history[1].timeUs <= cutoff then Trimmed(history[1..], cutoff) else history
  }

  function Kept(history: seq<Position>, now: nat): seq<Position> {
    if history != [] && now < history[|history| - 1].timeUs then [] else history
  }

  function NewHistory(history: seq<Position>, now: nat, positions: seq<real>): (h: seq<Position>)
    ensures h != []
  {
    Trimmed(Kept(history, now) + [Position(now, positions)], Cutoff(now))
  }

  function Speed(now: Position, oldest: Position, axis: nat): real
    requires axis < |now.positions| == |oldest.positions| && oldest.timeUs <= now.timeUs
  {
    var elapsed := now.timeUs - oldest.timeUs;
    var us := if elapsed < SPEED_WINDOW_US then SPEED_WINDOW_US else elapsed;
    Distance(now.positions[axis], oldest.positions[axis]) / (us as real / US_PER_MINUTE)
  }

  /** The speeds of a sample: zero unless the axes moved since the last sample and the window has some length. */
  function Speeds(now: Position, oldest: Position, moved: bool): (speeds: seq<real>)
    ensures |speeds| == |now.positions|
  {
    if moved && now.timeUs > oldest.timeUs && |oldest.positions| == |now.positions| then
      seq(|now.positions|, i requires 0 <= i < |now.positions| => Speed(now, oldest, i))
    else seq(|now.positions|, _ => 0.0)
  }

  predicate Visible(speeds: seq<real>) {
    exists i | 0 <= i < |speeds| :: speeds[i] >= VISIBLE_SPEED
  }

  /* ----- One observation ----- */

  function Emitted(s: Telemetry, r: Reading): (Telemetry, Sample) {
    var axes := Observable(r.axes);
    var now := Position(r.nowUs, PositionsOf(axes));
    var history := NewHistory(s.history, r.nowUs, now.positions);
    var moved := s.emittedSteps.Some? && Steps(r) != s.emittedSteps.value;
    var speeds := Speeds(now, history[0], moved);
    (s.(ticksSinceEmit := 0, nextSequence := s.nextSequence + 1, emittedRpm := Some(r.actualRpm),
        emittedTarget := Some(r.targetRpm), emittedTime := Some(r.nowUs), emittedWall := Some(r.wallNs),
        emittedSteps := Some(Steps(r)), history := history, hadMotion := Visible(speeds)),
     Sample(s.nextSequence, r.nowUs, axes, r.actualRpm, r.targetRpm, speeds))
  }

  predicate Emits(s: Telemetry, r: Reading, force: bool) {
    var ticks := s.ticksSinceEmit + if force then 0 else 1;
    force
    || (!Baseline(s, r)
        && (Steps(r) != s.lastObserved || SpindleChanged(s.emittedRpm, s.emittedTarget, r)
            || s.emittedSteps != Some(Steps(r)) || s.hadMotion)
        && (IntervalElapsed(s, r, ticks) || s.emittedSteps.None?)
        && !Settled(s, r))
  }

  function Noted(s: Telemetry, r: Reading, force: bool): Telemetry {
    s.(lastObserved := Steps(r),
       ticksSinceEmit := if force || Baseline(s, r) then s.ticksSinceEmit else s.ticksSinceEmit + 1)
  }

  function Observed(s: Telemetry, r: Reading, force: bool): (Telemetry, Option<Sample>) {
    if Emits(s, r, force) then
      var (s', sample) := Emitted(Noted(s, r, force), r);
      (s', Some(sample))
    else (Noted(s, r, force), None)
  }

  function Fresh(s: Telemetry): Telemetry {
    Telemetry(s.intervalTicks, s.intervalUs, 0, 1, [], None, None, None, None, None, [], false)
  }

  /* ----- The emitter as an object ----- */

  class MotionTelemetry {
    var hasSink: bool
    var intervalTicks: nat
    var intervalUs: nat
    var ticksSinceEmit: nat
    var nextSequence: nat
    var lastObservedSteps: seq<int>
    var lastEmittedSpindleRpm: Option<real>
    var lastEmittedSpindleTargetRpm: Option<real>
    var lastEmittedTimeUs: Option<nat>
    var lastEmittedWallNs: Option<int>
    var lastEmittedSteps: Option<seq<int>>
    var physicalPositionHistory: seq<Position>
    var lastEmittedHadMotion: bool

    function State(): Telemetry
      reads this
    {
      Telemetry(intervalTicks, intervalUs, ticksSinceEmit, nextSequence, lastObservedSteps, lastEmittedSpindleRpm,
                lastEmittedSpindleTargetRpm, lastEmittedTimeUs, lastEmittedWallNs, lastEmittedSteps,
                physicalPositionHistory, lastEmittedHadMotion)
    }

    constructor ()
      ensures State() == Telemetry(30, 10_000, 0, 1, [], None, None, None, None, None, [], false) && !hasSink
    {
      hasSink, intervalTicks, intervalUs := false, 30, 10_000;
      ticksSinceEmit, nextSequence, lastObservedSteps := 0, 1, [];
      lastEmittedSpindleRpm, lastEmittedSpindleTargetRpm := None, None;
      lastEmittedTimeUs, lastEmittedWallNs, lastEmittedSteps := None, None, None;
      physicalPositionHistory, lastEmittedHadMotion := [], false;
    }

    method Reset()
      modifies this
      ensures State() == Fresh(old(State())) && hasSink == old(hasSink)
    {
      ticksSinceEmit, nextSequence, lastObservedSteps := 0, 1, [];
      lastEmittedSpindleRpm, lastEmittedSpindleTargetRpm := None, None;
      lastEmittedTimeUs, lastEmittedWallNs, lastEmittedSteps := None, None, None;
      physicalPositionHistory, lastEmittedHadMotion := [], false;
    }

    method SetSink(present: bool)
      modifies this
      ensures hasSink == present && State() == Fresh(old(State()))
    {
      hasSink := present;
      Reset();
    }

    method SetIntervalTicks(ticks: nat)
      modifies this`intervalTicks
      ensures intervalTicks == if ticks == 0 then 1 else ticks
    {
      intervalTicks := if ticks == 0 then 1 else ticks;
    }

    method SetIntervalUs(us: nat)
      modifies this`intervalUs
      ensures intervalUs == if us == 0 then 1 else us
    {
      intervalUs := if us == 0 then 1 else us;
    }

    /** Keeps the window of past positions that speeds are measured over. */
    method Remember(now: nat, positions: seq<real>)
      modifies this`physicalPositionHistory
      ensures physicalPositionHistory == NewHistory(old(physicalPositionHistory), now, positions)
    {
      if physicalPositionHistory != [] && now < physicalPositionHistory[|physicalPositionHistory| - 1].timeUs {
        physicalPositionHistory := [];
      }
      physicalPositionHistory := physicalPositionHistory + [Position(now, positions)];
      ghost var all := physicalPositionHistory;
      while |physicalPositionHistory| > 1 && physicalPositionHistory[1].timeUs <= Cutoff(now)
        invariant Trimmed(physicalPositionHistory, Cutoff(now)) == Trimmed(all, Cutoff(now))
        decreases |physicalPositionHistory|
      {
        physicalPositionHistory := physicalPositionHistory[1..];
      }
    }

    method MeasureSpeeds(now: Position, moved: bool) returns (speeds: seq<real>, visible: bool)
      requires physicalPositionHistory != []
      ensures speeds == Speeds(now, physicalPositionHistory[0], moved) && visible == Visible(speeds)
    {
      visible := false;
      var oldest := physicalPositionHistory[0];
      speeds := seq(|now.positions|, _ => 0.0);
      if moved && now.timeUs > oldest.timeUs && |oldest.positions| == |now.positions| {
        var axis := 0;
        while axis < |now.positions|
          invariant 0 <= axis <= |now.positions| == |speeds|
          invariant forall i | 0 <= i < axis :: speeds[i] == Speed(now, oldest, i)
          invariant visible <==> exists i | 0 <= i < axis :: speeds[i] >= VISIBLE_SPEED
        {
          var speed := Speed(now, oldest, axis);
          speeds := speeds[axis := speed];
          visible := visible || speed >= VISIBLE_SPEED;
          axis := axis + 1;
        }
      }
    }

    /** Remembers the readings of a sample and gives it its number. */
    method TakeNumber(r: Reading, steps: seq<int>) returns (sequence: nat)
      modifies this`ticksSinceEmit, this`nextSequence, this`lastEmittedSpindleRpm, this`lastEmittedSpindleTargetRpm,
               this`lastEmittedTimeUs, this`lastEmittedWallNs, this`lastEmittedSteps
      ensures ticksSinceEmit == 0 && sequence == old(nextSequence) && nextSequence == sequence + 1
      ensures lastEmittedSteps == Some(steps) && lastEmittedTimeUs == Some(r.nowUs)
      ensures lastEmittedWallNs == Some(r.wallNs)
      ensures lastEmittedSpindleRpm == Some(r.actualRpm) && lastEmittedSpindleTargetRpm == Some(r.targetRpm)
    {
      ticksSinceEmit := 0;
      lastEmittedSteps := Some(steps);
      lastEmittedSpindleRpm := Some(r.actualRpm);
      lastEmittedSpindleTargetRpm := Some(r.targetRpm);
      lastEmittedTimeUs := Some(r.nowUs);
      lastEmittedWallNs := Some(r.wallNs);
      sequence := nextSequence;
      nextSequence := nextSequence + 1;
    }

    /** The last part of an observation: everything about the sample is remembered, and it goes to the sink. */
    method Emit(r: Reading) returns (sample: Sample)
      modifies this
      ensures hasSink == old(hasSink) && (State(), sample) == Emitted(old(State()), r)
    {
      hide Observable, StepsOf, PositionsOf, NewHistory, Speeds, Visible;
      var axes := Observable(r.axes);
      var steps := StepsOf(axes);
      var moved := lastEmittedSteps.Some? && steps != lastEmittedSteps.value;
      var sequence := TakeNumber(r, steps);
      var now := Position(r.nowUs, PositionsOf(axes));
      Remember(r.nowUs, now.positions);
      var speeds, visible := MeasureSpeeds(now, moved);
      lastEmittedHadMotion := visible;
      return Sample(sequence, r.nowUs, axes, r.actualRpm, r.targetRpm, speeds);
    }

    method Observe(r: Reading, force: bool) returns (sample: Option<Sample>)
      modifies this
      ensures hasSink == old(hasSink)
      ensures old(hasSink) ==> (State(), sample) == Observed(old(State()), r, force)
      ensures !old(hasSink) ==> State() == old(State()) && sample == None
    {
      hide Observable, StepsOf, Distance, SpindleChanged, TimeElapsed, WallTimeElapsed, Emitted;
      if !hasSink {
        return None;
      }
      var axes := Observable(r.axes);
      var steps := StepsOf(axes);
      if !force && lastObservedSteps == [] && steps != [] {
        lastObservedSteps := steps;
        return None;
      }
      if !force {
        ticksSinceEmit := ticksSinceEmit + 1;
      }
      var changed := steps != lastObservedSteps;
      var spindleChanged := SpindleChanged(lastEmittedSpindleRpm, lastEmittedSpindleTargetRpm, r);
      var unemitted := lastEmittedSteps.None? || steps != lastEmittedSteps.value || lastEmittedHadMotion;
      lastObservedSteps := steps;
      if !force && !changed && !spindleChanged && !unemitted {
        return None;
      }
      var timeElapsed := if r.realtime then WallTimeElapsed(lastEmittedWallNs, intervalUs, r.wallNs)
                         else TimeElapsed(lastEmittedTimeUs, intervalUs, r.nowUs);
      var elapsed := if changed then ticksSinceEmit >= intervalTicks || timeElapsed else timeElapsed;
      if !force && !elapsed && lastEmittedSteps.Some? {
        return None;
      }
      if !force && lastEmittedSteps.Some? && lastEmittedSpindleRpm.Some? && lastEmittedSpindleTargetRpm.Some?
         && steps == lastEmittedSteps.value && Distance(r.actualRpm, lastEmittedSpindleRpm.value) < RPM_STEP
         && Distance(r.targetRpm, lastEmittedSpindleTargetRpm.value) < RPM_STEP && !lastEmittedHadMotion {
        return None;
      }
      var emitted := Emit(r);
      return Some(emitted);
    }
  }

  /* ----- When a sample is sent ----- */

  /** An unforced observation sends a sample exactly when it is not the first sight of the axes, its interval is over or
      nothing was ever sent, and the sample would tell something new: other steps, a spindle reading off by a whole
      step, or axes last shown moving. The spinning flag on its own never makes a difference. */
  lemma SendsExactlyWhen(s: Telemetry, r: Reading)
    ensures Observed(s, r, false).1.Some?
            <==> !Baseline(s, r) && !Settled(s, r)
                 && (IntervalElapsed(s, r, s.ticksSinceEmit + 1) || s.emittedSteps.None?)
  {
    hide Distance, Steps, Emitted;
  }

  /** No listener is left with stale readings: after every observation but the first, either what was last sent agrees
      with the reading, or the last sample was sent less than an interval ago. */
  lemma StaleForLessThanAnInterval(s: Telemetry, r: Reading, force: bool)
    requires s.intervalUs > 0 && (force || !Baseline(s, r))
    ensures var s' := Observed(s, r, force).0;
            Settled(s', r) || !Due(s', r)
  {
    hide Distance, Steps, StepsOf, Observable, PositionsOf, NewHistory, Speeds, Visible;
  }

  /* ----- Whole runs ----- */

  datatype Event = Observe(reading: Reading, force: bool) | SetTicks(ticks: nat) | SetUs(us: nat)

  function Handled(s: Telemetry, e: Event): (Telemetry, seq<Sample>) {
    match e
    case Observe(r, force) =>
      var (s', sample) := Observed(s, r, force);
      (s', if sample.Some? then [sample.value] else [])
    case SetTicks(ticks) => (s.(intervalTicks := if ticks == 0 then 1 else ticks), [])
    case SetUs(us) => (s.(intervalUs := if us == 0 then 1 else us), [])
  }

  /** The emitter after some events, and all samples it sent. */
  function Run(s: Telemetry, events: seq<Event>): (Telemetry, seq<Sample>) {
    if events == [] then (s, [])
    else
      var (s1, samples) := Run(s, events[..|events| - 1]);
      var (s2, more) := Handled(s1, events[|events| - 1]);
      (s2, samples + more)
  }

  /** The emitter remembers of its last sample exactly what decides the next one. */
  predicate Remembers(s: Telemetry, samples: seq<Sample>) {
    if samples == [] then
      s.emittedSteps.None? && s.emittedTime.None? && s.emittedWall.None? && s.emittedRpm.None? && s.emittedTarget.None?
      && !s.hadMotion && s.history == []
    else
      var last := samples[|samples| - 1];
      s.emittedSteps == Some(StepsOf(last.axes)) && s.emittedTime == Some(last.timeUs)
      && s.emittedRpm == Some(last.actualRpm) && s.emittedTarget == Some(last.targetRpm)
      && s.hadMotion == Visible(last.speeds)
  }

  /** Sequence numbers count the samples. */
  predicate Numbered(s: Telemetry, samples: seq<Sample>) {
    s.nextSequence == |samples| + 1 && forall i | 0 <= i < |samples| :: samples[i].sequence == i + 1
  }

  /* ----- The speed window ----- */

  function PositionOf(sample: Sample): Position {
    Position(sample.timeUs, PositionsOf(sample.axes))
  }

  /** Sample first is where the window of sample last starts: the latest sample at least a window older, or, when there
      is none, the oldest since the clock last went back. */
  predicate WindowStart(samples: seq<Sample>, first: nat, last: nat)
    requires first <= last < |samples|
  {
    && (forall i | first < i <= last :: samples[i - 1].timeUs <= samples[i].timeUs)
    && (forall i | first < i <= last :: samples[i].timeUs > Cutoff(samples[last].timeUs))
    && (first > 0 ==> samples[first].timeUs <= Cutoff(samples[last].timeUs)
                      || samples[first].timeUs < samples[first - 1].timeUs)
  }

  function Positions(samples: seq<Sample>): (positions: seq<Position>)
    ensures |positions| == |samples| && forall i | 0 <= i < |samples| :: positions[i] == PositionOf(samples[i])
  {
    seq(|samples|, i requires 0 <= i < |samples| => PositionOf(samples[i]))
  }

  predicate Ascending(samples: seq<Sample>, first: nat) {
    forall i | first < i < |samples| :: samples[i - 1].timeUs <= samples[i].timeUs
  }

  predicate StartsWindow(samples: seq<Sample>, first: nat, cutoff: nat) {
    0 < first < |samples| ==> samples[first].timeUs <= cutoff || samples[first].timeUs < samples[first - 1].timeUs
  }

  lemma AscendingFrom(samples: seq<Sample>, first: nat, i: nat, j: nat)
    requires Ascending(samples, first) && first <= i <= j < |samples|
    ensures samples[i].timeUs <= samples[j].timeUs
  {
    if i < j { AscendingFrom(samples, first, i, j - 1); }
  }

  lemma TrimmingOnce(samples: seq<Sample>, first: nat, cutoff: nat)
    requires first < |samples|
    ensures Trimmed(Positions(samples[first..]), cutoff)
            == if first + 1 < |samples| && samples[first + 1].timeUs <= cutoff
               then Trimmed(Positions(samples[first + 1..]), cutoff)
               else Positions(samples[first..])
  {
    hide PositionsOf;
    var h := Positions(samples[first..]);
    if |h| > 1 {
      assert h[1] == PositionOf(samples[first + 1]);
      assert h[1..] == Positions(samples[first + 1..]);
    }
  }

  lemma AllLater(samples: seq<Sample>, first: nat, cutoff: nat)
    requires Ascending(samples, first)
    requires first + 1 < |samples| ==> samples[first + 1].timeUs > cutoff
    ensures forall i | first < i < |samples| :: samples[i].timeUs > cutoff
  {
    forall i | first < i < |samples| ensures samples[i].timeUs > cutoff {
      AscendingFrom(samples, first, first + 1, i);
    }
  }

  /** Dropping superfluous samples from the front of a window finds where the window starts. */
  lemma {:induction false} TrimmingFindsTheStart(samples: seq<Sample>, first: nat) returns (start: nat)
    requires first < |samples| && Ascending(samples, first)
    requires StartsWindow(samples, first, Cutoff(samples[|samples| - 1].timeUs))
    ensures first <= start < |samples| && WindowStart(samples, start, |samples| - 1)
    ensures Trimmed(Positions(samples[first..]), Cutoff(samples[|samples| - 1].timeUs)) == Positions(samples[start..])
    decreases |samples| - first
  {
    hide Trimmed, Positions, Cutoff;
    var cutoff := Cutoff(samples[|samples| - 1].timeUs);
    TrimmingOnce(samples, first, cutoff);
    if first + 1 < |samples| && samples[first + 1].timeUs <= cutoff {
      start := TrimmingFindsTheStart(samples, first + 1);
    } else {
      start := first;
      AllLater(samples, first, cutoff);
    }
  }

  /** The history is the window of the last sample. */
  ghost predicate KeepsWindow(history: seq<Position>, samples: seq<Sample>) {
    if samples == [] then history == []
    else exists first | 0 <= first < |samples| ::
           WindowStart(samples, first, |samples| - 1) && history == Positions(samples[first..])
  }

  /** The window that a new sample is added to, before it is trimmed. */
  predicate Candidate(history: seq<Position>, samples: seq<Sample>, sample: Sample, first: nat) {
    first <= |samples| && Ascending(samples + [sample], first)
    && StartsWindow(samples + [sample], first, Cutoff(sample.timeUs))
    && Kept(history, sample.timeUs) + [PositionOf(sample)] == Positions((samples + [sample])[first..])
  }

  lemma WindowContinues(history: seq<Position>, samples: seq<Sample>, sample: Sample, first: nat)
    requires first < |samples| && WindowStart(samples, first, |samples| - 1) && history == Positions(samples[first..])
    requires samples[|samples| - 1].timeUs <= sample.timeUs
    ensures Candidate(history, samples, sample, first)
  {
    hide PositionsOf;
    var all := samples + [sample];
    assert history[|history| - 1] == PositionOf(samples[|samples| - 1]);
    assert all[first..] == samples[first..] + [sample];
  }

  lemma WindowRestarts(history: seq<Position>, samples: seq<Sample>, sample: Sample)
    requires KeepsWindow(history, samples)
    requires samples != [] ==> sample.timeUs < samples[|samples| - 1].timeUs
    ensures Candidate(history, samples, sample, |samples|)
  {
    hide PositionsOf, WindowStart;
    var n := |samples|;
    assert (samples + [sample])[n..] == [sample];
    if samples != [] {
      var f :| 0 <= f < n && WindowStart(samples, f, n - 1) && history == Positions(samples[f..]);
      assert history[|history| - 1] == PositionOf(samples[n - 1]);
    }
  }

  lemma WindowMovesOn(history: seq<Position>, samples: seq<Sample>, sample: Sample) returns (start: nat)
    requires KeepsWindow(history, samples)
    ensures start <= |samples| && WindowStart(samples + [sample], start, |samples|)
    ensures NewHistory(history, sample.timeUs, PositionsOf(sample.axes)) == Positions((samples + [sample])[start..])
  {
    hide Positions, PositionsOf, WindowStart, Ascending, StartsWindow, Trimmed, Cutoff;
    var n := |samples|;
    var first := n;
    if samples != [] && sample.timeUs >= samples[n - 1].timeUs {
      first :| 0 <= first < n && WindowStart(samples, first, n - 1) && history == Positions(samples[first..]);
      WindowContinues(history, samples, sample, first);
    } else {
      WindowRestarts(history, samples, sample);
    }
    start := TrimmingFindsTheStart(samples + [sample], first);
  }

  /** The speeds of sample k are displacements since the start of its window, unless no axis had moved since the
      sample before. */
  ghost predicate Measured(samples: seq<Sample>, k: nat)
    requires k < |samples|
  {
    exists first | 0 <= first <= k ::
      WindowStart(samples, first, k)
      && samples[k].speeds == Speeds(PositionOf(samples[k]), PositionOf(samples[first]),
                                     k > 0 && StepsOf(samples[k].axes) != StepsOf(samples[k - 1].axes))
  }

  ghost predicate Truthful(s: Telemetry, samples: seq<Sample>) {
    Remembers(s, samples) && Numbered(s, samples) && KeepsWindow(s.history, samples)
    && forall k | 0 <= k < |samples| :: Measured(samples, k)
  }

  lemma MeasuredStays(samples: seq<Sample>, sample: Sample, k: nat)
    requires k < |samples| && Measured(samples, k)
    ensures Measured(samples + [sample], k)
  {
    hide Speeds, StepsOf, PositionsOf, Cutoff;
    var all := samples + [sample];
    var first :| 0 <= first <= k
      && WindowStart(samples, first, k)
      && samples[k].speeds == Speeds(PositionOf(samples[k]), PositionOf(samples[first]),
                                     k > 0 && StepsOf(samples[k].axes) != StepsOf(samples[k - 1].axes));
    assert all[k] == samples[k] && all[first] == samples[first] && (k > 0 ==> all[k - 1] == samples[k - 1]);
    assert WindowStart(all, first, k);
  }

  lemma EmissionIsMeasured(s: Telemetry, r: Reading, samples: seq<Sample>)
    requires Remembers(s, samples) && KeepsWindow(s.history, samples)
    ensures var (s', sample) := Emitted(s, r);
            Measured(samples + [sample], |samples|) && KeepsWindow(s'.history, samples + [sample])
  {
    hide Speeds, PositionsOf, StepsOf, NewHistory, WindowStart, Observable, Visible;
    var (s', sample) := Emitted(s, r);
    var all := samples + [sample];
    var start := WindowMovesOn(s.history, samples, sample);
    assert s'.history[0] == PositionOf(all[start]);
    assert all[|samples|] == sample;
    assert WindowStart(all, start, |samples|);
  }

  lemma EmissionIsTruthful(s: Telemetry, r: Reading, samples: seq<Sample>)
    requires Truthful(s, samples)
    ensures var (s', sample) := Emitted(s, r); Truthful(s', samples + [sample])
  {
    hide Measured, KeepsWindow, Speeds, PositionsOf, StepsOf, NewHistory, Observable, Visible;
    var (s', sample) := Emitted(s, r);
    EmissionIsMeasured(s, r, samples);
    forall k | 0 <= k < |samples| ensures Measured(samples + [sample], k) {
      MeasuredStays(samples, sample, k);
    }
  }

  lemma EventIsTruthful(s: Telemetry, e: Event, samples: seq<Sample>)
    requires Truthful(s, samples)
    ensures var (s', more) := Handled(s, e); Truthful(s', samples + more)
  {
    hide Measured, KeepsWindow, Emits, Steps, StepsOf, Visible, Baseline, Emitted;
    assert samples + [] == samples;
    if e.Observe? {
      var noted := Noted(s, e.reading, e.force);
      assert Truthful(noted, samples);
      EmissionIsTruthful(noted, e.reading, samples);
    }
  }

  /** Over any run of observations, forced or not, and changes of the intervals, from a reset emitter: samples are
      numbered one after the other, the emitter remembers the last one, and every speed in every sample is the
      displacement over that sample's window. */
  lemma {:induction false} RunsAreTruthful(s: Telemetry, events: seq<Event>)
    requires s == Fresh(s)
    ensures var (s', samples) := Run(s, events); Truthful(s', samples)
  {
    hide Measured, KeepsWindow, Handled;
    if events != [] {
      RunsAreTruthful(s, events[..|events| - 1]);
      var (s1, samples) := Run(s, events[..|events| - 1]);
      EventIsTruthful(s1, events[|events| - 1], samples);
    } else {
      FreshIsTruthful(s);
    }
  }

  lemma FreshIsTruthful(s: Telemetry)
    requires s == Fresh(s)
    ensures Truthful(s, [])
  {
  }

  /** A speed reported for an axis is no higher than any speed limit the axis kept since the start of the window. */
  lemma SpeedsKeepTheLimit(now: Position, oldest: Position, moved: bool, axis: nat, limit: real)
    requires axis < |now.positions| == |oldest.positions| && oldest.timeUs <= now.timeUs && limit >= 0.0
    requires Distance(now.positions[axis], oldest.positions[axis])
             <= limit * ((now.timeUs - oldest.timeUs) as real / US_PER_MINUTE)
    ensures Speeds(now, oldest, moved)[axis] <= limit
  {
    var elapsed := now.timeUs - oldest.timeUs;
    var us := if elapsed < SPEED_WINDOW_US then SPEED_WINDOW_US else elapsed;
    var d := Distance(now.positions[axis], oldest.positions[axis]);
    var actual, counted := elapsed as real / US_PER_MINUTE, us as real / US_PER_MINUTE;
    assert us as real >= elapsed as real && us as real >= 1.0;
    assert counted >= actual && counted > 0.0;
    assert d <= limit * actual;
    WithinLimit(d, limit, actual, counted);
  }

  /** A reported speed times the time it stands for is the displacement: the time since the start of the window, or the
      window's 100 ms when that is longer. So a displacement d is never shown faster than 600 d per minute. */
  lemma SpeedsAreExact(now: Position, oldest: Position, axis: nat)
    requires axis < |now.positions| == |oldest.positions| && oldest.timeUs < now.timeUs
    ensures var d, speed := Distance(now.positions[axis], oldest.positions[axis]), Speeds(now, oldest, true)[axis];
            && (now.timeUs - oldest.timeUs >= 100_000 ==>
                  speed * ((now.timeUs - oldest.timeUs) as real / 60_000_000.0) == d)
            && (now.timeUs - oldest.timeUs <= 100_000 ==> speed == 600.0 * d)
            && speed <= 600.0 * d
  {
    var elapsed := now.timeUs - oldest.timeUs;
    var us := if elapsed < SPEED_WINDOW_US then SPEED_WINDOW_US else elapsed;
    var d := Distance(now.positions[axis], oldest.positions[axis]);
    var counted := us as real / US_PER_MINUTE;
    assert us as real >= 100_000.0 && counted >= 1.0 / 600.0;
    assert Speeds(now, oldest, true)[axis] == d / counted;
    assert d / counted * counted == d;
    Scales(600.0 * d, 1.0 / 600.0, counted);
    WithinLimit(d, 600.0 * d, 1.0 / 600.0, counted);
  }

  lemma WithinLimit(d: real, limit: real, actual: real, counted: real)
    requires limit >= 0.0 && actual <= counted && counted > 0.0 && d <= limit * actual
    ensures d / counted <= limit
  {
    var q := d / counted;
    assert q * counted == d;
    if q > limit {
      Larger(limit, q, counted);
      Scales(limit, actual, counted);
    }
  }

  lemma Scales(a: real, x: real, y: real)
    requires a >= 0.0 && x <= y
    ensures a * x <= a * y
  {
  }

  lemma Larger(a: real, b: real, m: real)
    requires m > 0.0 && a < b
    ensures a * m < b * m
  {
  }

  /** Between neighbouring samples, unless the clock went back, the axis kept the limit. */
  predicate KeepsLimit(samples: seq<Sample>, axis: nat, limit: real) {
    (forall k | 0 <= k < |samples| :: axis < |samples[k].axes|)
    && forall k | 0 < k < |samples| && samples[k - 1].timeUs <= samples[k].timeUs ::
         Distance(samples[k].axes[axis].mm, samples[k - 1].axes[axis].mm)
         <= limit * Minutes(samples[k - 1].timeUs, samples[k].timeUs)
  }

  function Minutes(from: nat, to: nat): real
    requires from <= to
  {
    (to - from) as real / US_PER_MINUTE
  }

  lemma MinutesAdd(a: nat, b: nat, c: nat, limit: real)
    requires a <= b <= c
    ensures limit * Minutes(a, b) + limit * Minutes(b, c) == limit * Minutes(a, c)
  {
    assert Minutes(a, b) + Minutes(b, c) == Minutes(a, c);
  }

  lemma {:induction false} Travelled(samples: seq<Sample>, first: nat, k: nat, axis: nat, limit: real)
    requires first <= k < |samples| && KeepsLimit(samples, axis, limit) && limit >= 0.0
    requires forall i | first < i <= k :: samples[i - 1].timeUs <= samples[i].timeUs
    ensures samples[first].timeUs <= samples[k].timeUs
    ensures Distance(samples[k].axes[axis].mm, samples[first].axes[axis].mm)
            <= limit * Minutes(samples[first].timeUs, samples[k].timeUs)
  {
    if first == k {
      Scales(limit, 0.0, Minutes(samples[k].timeUs, samples[k].timeUs));
    } else {
      Travelled(samples, first, k - 1, axis, limit);
      MinutesAdd(samples[first].timeUs, samples[k - 1].timeUs, samples[k].timeUs, limit);
    }
  }

  /** Over any run, an axis that keeps a speed limit from sample to sample is never reported faster than the limit,
      however the observations are timed and whatever the clock does. */
  lemma NoSpeedIsOverstated(s: Telemetry, events: seq<Event>, axis: nat, limit: real)
    requires s == Fresh(s) && limit >= 0.0
    requires KeepsLimit(Run(s, events).1, axis, limit)
    ensures forall k | 0 <= k < |Run(s, events).1| ::
              axis < |Run(s, events).1[k].speeds| && Run(s, events).1[k].speeds[axis] <= limit
  {
    hide Run, Speeds, Minutes, Distance;
    RunsAreTruthful(s, events);
    var samples := Run(s, events).1;
    forall k | 0 <= k < |samples| ensures axis < |samples[k].speeds| && samples[k].speeds[axis] <= limit {
      MeasuredKeepsLimit(samples, k, axis, limit);
    }
  }

  lemma MeasuredKeepsLimit(samples: seq<Sample>, k: nat, axis: nat, limit: real)
    requires k < |samples| && Measured(samples, k) && KeepsLimit(samples, axis, limit) && limit >= 0.0
    ensures axis < |samples[k].speeds| && samples[k].speeds[axis] <= limit
  {
    hide Speeds, Distance, KeepsLimit, WindowStart, StepsOf, PositionsOf;
    var moved := k > 0 && StepsOf(samples[k].axes) != StepsOf(samples[k - 1].axes);
    var first :| 0 <= first <= k && WindowStart(samples, first, k)
                 && samples[k].speeds == Speeds(PositionOf(samples[k]), PositionOf(samples[first]), moved);
    TravelledInWindow(samples, first, k, axis, limit);
    WindowKeepsLimit(PositionOf(samples[k]), PositionOf(samples[first]), moved, axis, limit);
  }

  lemma TravelledInWindow(samples: seq<Sample>, first: nat, k: nat, axis: nat, limit: real)
    requires first <= k < |samples| && WindowStart(samples, first, k)
    requires KeepsLimit(samples, axis, limit) && limit >= 0.0
    ensures axis < |samples[k].axes| && axis < |samples[first].axes| && samples[first].timeUs <= samples[k].timeUs
    ensures Distance(samples[k].axes[axis].mm, samples[first].axes[axis].mm)
            <= limit * Minutes(samples[first].timeUs, samples[k].timeUs)
  {
    hide Distance, Minutes;
    Travelled(samples, first, k, axis, limit);
  }

  lemma WindowKeepsLimit(now: Position, oldest: Position, moved: bool, axis: nat, limit: real)
    requires axis < |now.positions| && axis < |oldest.positions| && oldest.timeUs <= now.timeUs && limit >= 0.0
    requires Distance(now.positions[axis], oldest.positions[axis]) <= limit * Minutes(oldest.timeUs, now.timeUs)
    ensures Speeds(now, oldest, moved)[axis] <= limit
  {
    if |now.positions| == |oldest.positions| { SpeedsKeepTheLimit(now, oldest, moved, axis, limit); }
  }

  /* ----- Coming to rest ----- */

  predicate Still(e: Event, rest: Reading) {
    e.Observe? ==> !e.force && Steps(e.reading) == Steps(rest)
                   && e.reading.actualRpm == rest.actualRpm && e.reading.targetRpm == rest.targetRpm
  }

  /** How many samples may still follow when nothing moves any more. */
  function Owed(s: Telemetry, rest: Reading): (n: nat)
    ensures n <= 2 && (n == 0 <==> Settled(s, rest)) && (n == 0 ==> !s.hadMotion)
  {
    if Settled(s, rest) then 0
    else if s.emittedSteps == Some(Steps(rest)) && Settled(s.(hadMotion := false), rest) then 1
    else 2
  }

  lemma EachSampleIsOwed(s: Telemetry, e: Event, rest: Reading)
    requires Still(e, rest)
    ensures var (s', samples) := Handled(s, e);
            |samples| + Owed(s', rest) <= Owed(s, rest)
            && (samples == [] ==> Owed(s', rest) == Owed(s, rest) && s'.hadMotion == s.hadMotion)
            && (samples != [] && Owed(s, rest) == 1 ==>
                  forall i | 0 <= i < |samples[0].speeds| :: samples[0].speeds[i] == 0.0)
            && (samples != [] ==> |samples| == 1 && s'.hadMotion == Visible(samples[0].speeds))
  {
    hide Steps, NewHistory, Observable, PositionsOf, IntervalElapsed;
  }

  /** Once steps and spindle readings stay as they are, at most two more samples follow however long the run is, and a
      second one shows every axis at rest. */
  lemma {:induction false} RestTakesAtMostTwoSamples(s: Telemetry, events: seq<Event>, rest: Reading)
    requires forall e | e in events :: Still(e, rest)
    ensures var (s', samples) := Run(s, events);
            |samples| + Owed(s', rest) <= Owed(s, rest)
            && (|samples| == 2 ==> forall i | 0 <= i < |samples[1].speeds| :: samples[1].speeds[i] == 0.0)
            && (samples == [] ==> Owed(s', rest) == Owed(s, rest))
            && (samples != [] && Owed(s', rest) == 0 ==> !Visible(samples[|samples| - 1].speeds))
            && (samples != [] ==> s'.hadMotion == Visible(samples[|samples| - 1].speeds))
  {
    hide Owed, Handled, Still, Visible;
    if events != [] {
      var (s1, samples) := Run(s, events[..|events| - 1]);
      RestTakesAtMostTwoSamples(s, events[..|events| - 1], rest);
      EachSampleIsOwed(s1, events[|events| - 1], rest);
    }
  }

  /** The spinning flag has no such guarantee. The code looks at it, but a sample that would differ in nothing else is
      then held back: started or stopped within one spindle step of the last sample, the spindle keeps its old flag. */
  lemma SpinningFlagMayStayWrong(s: Telemetry, events: seq<Event>, rest: Reading)
    requires Settled(s, rest) && SpindleChanged(s.emittedRpm, s.emittedTarget, rest)
    requires forall e | e in events :: Still(e, rest)
    ensures (rest.actualRpm > SPINNING_RPM) != (s.emittedRpm.value > SPINNING_RPM)
    ensures Run(s, events).1 == []
  {
    RestTakesAtMostTwoSamples(s, events, rest);
  }

  /** A run that ends like that: a new emitter sees a machine turning at 0.4 rpm twice and sends a sample the second
      time. At 0.6 rpm an interval later the flag is another one, and nothing more is sent however often it is seen. */
  lemma SpinningFlagWitness(later: seq<Event>)
    requires var rest := Reading([Axis(7, 0.0)], 0.6, 0.0, 20_000, false, 0); forall e | e in later :: Still(e, rest)
    ensures var slow := Observe(Reading([Axis(7, 0.0)], 0.4, 0.0, 0, false, 0), false);
            var rest := Reading([Axis(7, 0.0)], 0.6, 0.0, 20_000, false, 0);
            var start := Telemetry(30, 10_000, 0, 1, [], None, None, None, None, None, [], false);
            var (s, samples) := Run(start, [slow, slow]);
            && |samples| == 1 && samples[0].actualRpm == 0.4
            && Due(s, rest) && SpindleChanged(s.emittedRpm, s.emittedTarget, rest)
            && Run(s, later).1 == []
  {
    var start := Telemetry(30, 10_000, 0, 1, [], None, None, None, None, None, [], false);
    var r, rest := Reading([Axis(7, 0.0)], 0.4, 0.0, 0, false, 0), Reading([Axis(7, 0.0)], 0.6, 0.0, 20_000, false, 0);
    SlowSpindleIsSent(start, r, rest);
    SpinningFlagMayStayWrong(Run(start, [Observe(r, false), Observe(r, false)]).0, later, rest);
  }

  /** A new emitter that sees the same reading twice sends it the second time, and nothing appears to move. */
  lemma SlowSpindleIsSent(start: Telemetry, r: Reading, rest: Reading)
    requires start == Fresh(start) && Steps(r) == Steps(rest) != []
    requires Distance(rest.actualRpm, r.actualRpm) < RPM_STEP && Distance(rest.targetRpm, r.targetRpm) < RPM_STEP
    ensures var (s, samples) := Run(start, [Observe(r, false), Observe(r, false)]);
            && |samples| == 1 && samples[0].actualRpm == r.actualRpm && Settled(s, rest)
            && s.emittedRpm == Some(r.actualRpm) && s.emittedTarget == Some(r.targetRpm)
            && s.emittedTime == Some(r.nowUs) && s.intervalUs == start.intervalUs
  {
    hide Steps, Observable, PositionsOf, NewHistory, Distance;
    RunOfTwo(start, Observe(r, false), Observe(r, false));
    assert Observed(start, r, false) == (start.(lastObserved := Steps(r)), None);
  }

  predicate IntervalLater(r0: Reading, r1: Reading, us: nat) {
    if r1.realtime then r0.wallNs + us * 1000 <= r1.wallNs else r0.nowUs + us <= r1.nowUs
  }

  /** The resting position does reach the listener: of two unforced observations of a machine at rest, each a full
      interval after the last sample and the observation before it, the second leaves nothing owed. */
  lemma RestIsReported(s: Telemetry, rest: Reading, r0: Reading, r1: Reading)
    requires s.intervalUs > 0 && s.lastObserved != [] && Due(s, r0)
    requires Still(Observe(r0, false), rest) && Still(Observe(r1, false), rest)
    requires Steps(rest) != [] && IntervalLater(r0, r1, s.intervalUs)
    ensures var (s', samples) := Run(s, [Observe(r0, false), Observe(r1, false)]); Owed(s', rest) == 0
  {
    hide Handled, Owed, Run, Settled;
    DueSampleIsSent(s, rest, r0);
    var s1 := Handled(s, Observe(r0, false)).0;
    DueSampleIsSent(s1, rest, r1);
    RunOfTwo(s, Observe(r0, false), Observe(r1, false));
  }

  lemma RunOfTwo(s: Telemetry, e0: Event, e1: Event)
    ensures Run(s, [e0, e1]).0 == Handled(Handled(s, e0).0, e1).0
    ensures Run(s, [e0, e1]).1 == Handled(s, e0).1 + Handled(Handled(s, e0).0, e1).1
  {
    hide Handled;
    assert [e0, e1][..1] == [e0] && [e0][..0] == [];
    assert Run(s, []) == (s, []);
    assert [] + Handled(s, e0).1 == Handled(s, e0).1;
    assert Run(s, [e0]) == Handled(s, e0);
  }

  lemma DueSampleIsSent(s: Telemetry, rest: Reading, r: Reading)
    requires s.lastObserved != [] && (Due(s, r) || Owed(s, rest) == 0) && Still(Observe(r, false), rest)
    requires Steps(rest) != []
    ensures var s' := Handled(s, Observe(r, false)).0;
            (if Owed(s, rest) == 0 then Owed(s', rest) == 0
             else Owed(s', rest) < Owed(s, rest) && s'.emittedTime == Some(r.nowUs)
                  && s'.emittedWall == Some(r.wallNs))
            && s'.lastObserved != [] && s'.intervalUs == s.intervalUs
  {
    hide NewHistory, Observable, PositionsOf, Steps, Distance;
    EachSampleIsOwed(s, Observe(r, false), rest);
  }

  /* ----- In numbers ----- */

  /** The step counts of the first five axes. */
  ghost predicate FirstFive(r: Reading, steps: seq<int>) {
    |steps| == (if |r.axes| < 5 then |r.axes| else 5) && forall i | 0 <= i < |steps| :: steps[i] == r.axes[i].steps
  }

  lemma StepsAreFirstFive(r: Reading)
    ensures FirstFive(r, Steps(r))
    ensures forall steps | FirstFive(r, steps) :: steps == Steps(r)
  {
    forall steps | FirstFive(r, steps) ensures steps == Steps(r) {
      assert |steps| == |Steps(r)| && forall i | 0 <= i < |steps| :: steps[i] == Steps(r)[i];
    }
  }

  ghost predicate Within(a: real, b: real, step: real) {
    -step < a - b < step
  }

  /** The interval since the last sample is over: on the steady clock, in nanoseconds, when running in real time, and
      otherwise on the simulated one, also when that clock went back. */
  ghost predicate IntervalOver(s: Telemetry, r: Reading) {
    if r.realtime then s.emittedWall == None || r.wallNs >= s.emittedWall.value + 1000 * s.intervalUs
    else s.emittedTime == None || r.nowUs < s.emittedTime.value || r.nowUs >= s.emittedTime.value + s.intervalUs
  }

  /** An unforced observation sends a sample exactly when it is not the first sight of the axes; the first five axes
      stand elsewhere than last sent, moved visibly then, or a spindle reading is off by 10 rpm; and the interval is
      over, nothing was ever sent, or the axes have moved and it is the `intervalTicks`-th observation. A forced one
      always sends. */
  lemma SentInNumbers(s: Telemetry, r: Reading, steps: seq<int>)
    requires FirstFive(r, steps)
    ensures Observed(s, r, false).1.Some?
            <==> && !(s.lastObserved == [] && r.axes != [])
                 && !(s.emittedSteps == Some(steps) && !s.hadMotion
                      && s.emittedRpm.Some? && Within(r.actualRpm, s.emittedRpm.value, 10.0)
                      && s.emittedTarget.Some? && Within(r.targetRpm, s.emittedTarget.value, 10.0))
                 && (IntervalOver(s, r) || s.emittedSteps == None
                     || (steps != s.lastObserved && s.ticksSinceEmit + 1 >= s.intervalTicks))
    ensures Observed(s, r, true).1.Some?
  {
    hide Steps, StepsOf, Observable, Emitted;
    StepsAreFirstFive(r);
    SendsExactlyWhen(s, r);
  }

  /** A machine that moves at every observation is shown after as many observations as the tick interval says, however
      little time has passed. */
  lemma MoveIsSentByCount(s: Telemetry, r: Reading, steps: seq<int>)
    requires FirstFive(r, steps) && steps != s.lastObserved && s.lastObserved != []
    requires s.emittedSteps.Some? && steps != s.emittedSteps.value && !IntervalOver(s, r)
    ensures Observed(s, r, false).1.Some? <==> s.ticksSinceEmit + 1 >= s.intervalTicks
    ensures s.ticksSinceEmit + 1 < s.intervalTicks ==>
              Observed(s, r, false).0.ticksSinceEmit == s.ticksSinceEmit + 1
    ensures s.ticksSinceEmit + 1 >= s.intervalTicks ==> Observed(s, r, false).0.ticksSinceEmit == 0
  {
    hide Steps, StepsOf, Observable, NewHistory, Speeds, PositionsOf, Distance;
    SentInNumbers(s, r, steps);
    StepsAreFirstFive(r);
  }

  /** A sample shows the first five axes and the readings as they are, under the next number, and the emitter remembers
      whether an axis was shown moving by 0.05 mm per minute. */
  lemma SampleShows(s: Telemetry, r: Reading, force: bool)
    requires Observed(s, r, force).1.Some?
    ensures var (s', sample) := (Observed(s, r, force).0, Observed(s, r, force).1.value);
            && sample.sequence == s.nextSequence && s'.nextSequence == s.nextSequence + 1
            && sample.timeUs == r.nowUs && sample.actualRpm == r.actualRpm && sample.targetRpm == r.targetRpm
            && sample.axes == (if |r.axes| <= 5 then r.axes else r.axes[..5]) && |sample.speeds| == |sample.axes|
            && (s'.hadMotion <==> exists i | 0 <= i < |sample.speeds| :: sample.speeds[i] >= 0.05)
  {
    hide Steps, StepsOf, NewHistory, Speeds, Emits;
  }

  /** What an observation remembers: always the steps it saw; of a sample its steps, readings and both clocks, with the
      count of observations starting over; without a sample only that count, which the first sight of the axes and
      forced observations leave out. */
  lemma ObservationRemembers(s: Telemetry, r: Reading, force: bool, steps: seq<int>)
    requires FirstFive(r, steps)
    ensures var (s', sample) := Observed(s, r, force);
            && s'.lastObserved == steps && s'.intervalTicks == s.intervalTicks && s'.intervalUs == s.intervalUs
            && (sample.Some? ==>
                  && s'.ticksSinceEmit == 0 && s'.emittedSteps == Some(steps)
                  && s'.emittedRpm == Some(r.actualRpm) && s'.emittedTarget == Some(r.targetRpm)
                  && s'.emittedTime == Some(r.nowUs) && s'.emittedWall == Some(r.wallNs))
            && (sample == None ==>
                  s' == s.(lastObserved := steps,
                           ticksSinceEmit := s.ticksSinceEmit
                                             + if s.lastObserved == [] && r.axes != [] then 0 else 1))
  {
    hide Steps, StepsOf, NewHistory, Speeds, PositionsOf, SpindleChanged, Settled, IntervalElapsed;
    StepsAreFirstFive(r);
  }

  /** The sample that a reported speed is measured from: the latest one at least 100 ms older, or, when there is none,
      the oldest since the clock last went back. */
  ghost predicate MeasuredFrom(samples: seq<Sample>, first: nat, k: nat)
    requires first <= k < |samples|
  {
    var now := samples[k].timeUs;
    var cutoff := if now > 100_000 then now - 100_000 else 0;
    && (forall i | first < i <= k :: samples[i - 1].timeUs <= samples[i].timeUs && samples[i].timeUs > cutoff)
    && (first > 0 ==> samples[first].timeUs <= cutoff || samples[first].timeUs < samples[first - 1].timeUs)
  }

  /** Speed times minutes is distance; a window shorter than 100 ms counts as 100 ms, and nothing moves in a sample
      whose steps are those of the one before. */
  ghost predicate ShowsSpeeds(samples: seq<Sample>, first: nat, k: nat)
    requires first <= k < |samples|
  {
    var now, then_ := samples[k], samples[first];
    var moved := k > 0 && StepsOf(now.axes) != StepsOf(samples[k - 1].axes) && now.timeUs > then_.timeUs
                 && |now.axes| == |then_.axes|;
    && |now.speeds| == |now.axes|
    && forall i | 0 <= i < |now.speeds| ::
         if !moved then now.speeds[i] == 0.0
         else
           var us := if now.timeUs - then_.timeUs < 100_000 then 100_000 else now.timeUs - then_.timeUs;
           var mm := now.axes[i].mm - then_.axes[i].mm;
           now.speeds[i] * (us as real / 60_000_000.0) == if mm >= 0.0 then mm else -mm
  }

  /** In any run from a reset emitter every sample shows speeds measured like that. */
  lemma SpeedsInNumbers(s: Telemetry, events: seq<Event>, k: nat) returns (first: nat)
    requires s == Fresh(s) && k < |Run(s, events).1|
    ensures var samples := Run(s, events).1;
            first <= k && MeasuredFrom(samples, first, k) && ShowsSpeeds(samples, first, k)
  {
    hide Run, Speeds, StepsOf, PositionsOf, WindowStart;
    RunsAreTruthful(s, events);
    var samples := Run(s, events).1;
    assert Measured(samples, k);
    var moved := k > 0 && StepsOf(samples[k].axes) != StepsOf(samples[k - 1].axes);
    first :| 0 <= first <= k && WindowStart(samples, first, k)
             && samples[k].speeds == Speeds(PositionOf(samples[k]), PositionOf(samples[first]), moved);
    StartIsMeasuredFrom(samples, first, k);
    SpeedsAreShown(samples, first, k, moved);
  }

  lemma StartIsMeasuredFrom(samples: seq<Sample>, first: nat, k: nat)
    requires first <= k < |samples| && WindowStart(samples, first, k)
    ensures MeasuredFrom(samples, first, k)
  {
  }

  lemma SpeedsAreShown(samples: seq<Sample>, first: nat, k: nat, moved: bool)
    requires first <= k < |samples|
    requires moved == (k > 0 && StepsOf(samples[k].axes) != StepsOf(samples[k - 1].axes))
    requires samples[k].speeds == Speeds(PositionOf(samples[k]), PositionOf(samples[first]), moved)
    ensures ShowsSpeeds(samples, first, k)
  {
    hide StepsOf;
    var now, then_ := samples[k], samples[first];
    if moved && now.timeUs > then_.timeUs && |now.axes| == |then_.axes| {
      forall i | 0 <= i < |now.axes|
        ensures var us := if now.timeUs - then_.timeUs < 100_000 then 100_000 else now.timeUs - then_.timeUs;
                var mm := now.axes[i].mm - then_.axes[i].mm;
                now.speeds[i] * (us as real / 60_000_000.0) == if mm >= 0.0 then mm else -mm
      {
        var us := if now.timeUs - then_.timeUs < 100_000 then 100_000 else now.timeUs - then_.timeUs;
        var mm := now.axes[i].mm - then_.axes[i].mm;
        QuotientTimes(if mm >= 0.0 then mm else -mm, us as real / 60_000_000.0);
      }
    }
  }

  lemma QuotientTimes(d: real, m: real)
    requires m > 0.0
    ensures d / m * m == d
  {
  }
}
