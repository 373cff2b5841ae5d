/** The backplot: a server keeps the drawn path as segments and sends geometry operations to browsers, each of which
    keeps a replica of the polyline per line object. */
module Backplot {
  import opened Options

  const FULL_SYNC_EVERY: int := 40
  const AXIS_EPSILON: real := 0.000001

  datatype Point = Point(x: real, y: real, z: real)

  datatype Segment = Segment(start: Point, end: Point)

  datatype Kind = ResetAll | AppendOne | ReplaceLastOne

  /** What a script carries: the line object, the kind, the formatted coordinates, and the segment count expected
      before an incremental operation. */
  datatype Op = Op(line: nat, kind: Kind, values: seq<int>, base: int)

  datatype Config = Config(hasScene: bool, minDistance: real, maxSegments: int)

  datatype Layer = Layer(segments: seq<Segment>, lastPoint: Option<Point>, lastTime: Option<real>, line: Option<nat>,
                         nextLine: nat, opsSinceFullSync: int, sent: seq<Op>)

  /* ----- Geometry ----- */

  function Squared(r: real): real {
    r * r
  }

  function SquaredDistance(p: Point, q: Point): real {
    Squared(q.x - p.x) + Squared(q.y - p.y) + Squared(q.z - p.z)
  }

  /** Distance below a threshold; a threshold that is not positive is below every distance. */
  predicate CloserThan(p: Point, q: Point, threshold: real) {
    threshold > 0.0 && SquaredDistance(p, q) < Squared(threshold)
  }

  function Direction(delta: real): int {
    if -AXIS_EPSILON <= delta <= AXIS_EPSILON then 0 else if delta > 0.0 then 1 else -1
  }

  /** The one axis along which two points differ noticeably, and in which direction. */
  function AxisAlignedDelta(p: Point, q: Point): Option<(nat, int)> {
    var dx, dy, dz := Direction(q.x - p.x), Direction(q.y - p.y), Direction(q.z - p.z);
    if dx != 0 && dy == 0 && dz == 0 then Some((0, dx))
    else if dx == 0 && dy != 0 && dz == 0 then Some((1, dy))
    else if dx == 0 && dy == 0 && dz != 0 then Some((2, dz))
    else None
  }

  /** Whether a motion from the end of a segment continues the segment along its axis. */
  predicate Continues(segment: Segment, current: Point) {
    && AxisAlignedDelta(segment.start, segment.end).Some?
    && AxisAlignedDelta(segment.start, segment.end) == AxisAlignedDelta(segment.end, current)
  }

  function Coordinate(p: Point, axis: nat): real
    requires axis < 3
  {
    if axis == 0 then p.x else if axis == 1 then p.y else p.z
  }

  /** Replacing a segment and its continuation by one segment passes over the dropped point: it lies strictly between
      the ends along the axis, and nothing moves by more than the tolerance across it. */
  lemma CoalescingStaysOnTheLine(segment: Segment, current: Point)
    requires Continues(segment, current)
    ensures var (axis, direction) := AxisAlignedDelta(segment.start, segment.end).value;
            && axis < 3
            && (var a, b := Coordinate(segment.start, axis), Coordinate(segment.end, axis);
                var c := Coordinate(current, axis);
                if direction > 0 then a < b < c else a > b > c)
            && forall k | 0 <= k < 3 && k != axis ::
                 var a, b, c := Coordinate(segment.start, k), Coordinate(segment.end, k), Coordinate(current, k);
                 && -0.000001 <= b - a <= 0.000001
                 && -0.000001 <= c - b <= 0.000001
  {
  }

  /* ----- The server ----- */

  /** The slice s[i:] with the meaning negative indices have there. */
  function SliceFrom<T>(s: seq<T>, i: int): seq<T> {
    if i >= 0 then (if i <= |s| then s[i..] else []) else if -i <= |s| then s[|s| + i..] else s
  }

  /** Coordinates as written with six decimals, in millionths, halves to even. */
  function Millionths(v: real): int {
    var scaled := v * 1000000.0;
    var low := scaled.Floor;
    var rest := scaled - low as real;
    if rest < 0.5 || (rest == 0.5 && low % 2 == 0) then low else low + 1
  }

  function PointValues(p: Point): seq<int> {
    [Millionths(p.x), Millionths(p.y), Millionths(p.z)]
  }

  function SegmentValues(s: Segment): (v: seq<int>)
    ensures |v| == 6
  {
    PointValues(s.start) + PointValues(s.end)
  }

  function Values(segments: seq<Segment>): (v: seq<int>)
    ensures |v| == 6 * |segments|
  {
    if segments == [] then [] else Values(segments[..|segments| - 1]) + SegmentValues(segments[|segments| - 1])
  }

  /** Sends one operation: a full one when the line object is new, when asked for, or when 40 incremental ones have
      gone out since the last full one. */
  function Rendered(l: Layer, kind: Kind): Layer
    requires kind == ResetAll || l.segments != []
  {
    var created := l.line == None;
    var line := if created then l.nextLine else l.line.value;
    var l1 := if created then l.(line := Some(line), nextLine := l.nextLine + 1) else l;
    if created || kind == ResetAll || l.opsSinceFullSync >= FULL_SYNC_EVERY then
      l1.(opsSinceFullSync := 0, sent := l.sent + [Op(line, ResetAll, Values(l.segments), 0)])
    else
      var base := if kind == AppendOne then |l.segments| - 1 else |l.segments|;
      l1.(opsSinceFullSync := l.opsSinceFullSync + 1,
          sent := l.sent + [Op(line, kind, Values([l.segments[|l.segments| - 1]]), base)])
  }

  /** The guard of recording: a reference point exists and the new one is far enough from it. */
  predicate Records(c: Config, l: Layer, point: Point) {
    c.hasScene && l.lastPoint.Some? && l.lastTime.Some? && !CloserThan(l.lastPoint.value, point, c.minDistance)
  }

  predicate Coalesces(l: Layer, point: Point) {
    l.segments != [] && Continues(l.segments[|l.segments| - 1], point)
  }

  /** The segments after a recorded point, and the kind of operation sent for it. */
  function Extended(c: Config, l: Layer, point: Point): (r: (seq<Segment>, Kind))
    requires Records(c, l, point)
    ensures r.1 != ResetAll ==> r.0 != []
  {
    if Coalesces(l, point) then
      (l.segments[..|l.segments| - 1] + [Segment(l.segments[|l.segments| - 1].start, point)], ReplaceLastOne)
    else
      var all := l.segments + [Segment(l.lastPoint.value, point)];
      if |all| > c.maxSegments then (SliceFrom(all, -c.maxSegments), ResetAll) else (all, AppendOne)
  }

  function Recorded(c: Config, l: Layer, point: Point, time: real): Layer {
    if !c.hasScene then l
    else if l.lastPoint == None || l.lastTime == None then l.(lastPoint := Some(point), lastTime := Some(time))
    else if !Records(c, l, point) then l
    else
      var (segments, kind) := Extended(c, l, point);
      Rendered(l.(segments := segments, lastPoint := Some(point), lastTime := Some(time)), kind)
  }

  function Cleared(l: Layer): Layer {
    l.(line := None, segments := [], lastPoint := None, lastTime := None)
  }

  datatype Call = Record(point: Point, time: real) | Clear

  function AfterCall(c: Config, l: Layer, call: Call): Layer {
    match call
    case Record(point, time) => Recorded(c, l, point, time)
    case Clear => Cleared(l)
  }

  /** The server as an object. */
  class BackplotLayer {
    const config: Config
    var segments: seq<Segment>
    var lastPoint: Option<Point>
    var lastTime: Option<real>
    var line: Option<nat>
    var nextLine: nat
    var opsSinceFullSync: int
    /** The operations sent so far. */
    var sent: seq<Op>

    function State(): Layer
      reads this
    {
      Layer(segments, lastPoint, lastTime, line, nextLine, opsSinceFullSync, sent)
    }

    constructor (config: Config)
      ensures this.config == config && State() == Layer([], None, None, None, 0, 0, [])
    {
      this.config := config;
      segments, lastPoint, lastTime, line, nextLine, opsSinceFullSync, sent := [], None, None, None, 0, 0, [];
    }

    method ClearAll()
      modifies this
      ensures State() == Cleared(old(State()))
    {
      line := None;
      segments := [];
      lastPoint := None;
      lastTime := None;
    }

    method CoalesceLastSegment(current: Point) returns (done: bool)
      modifies this`segments
      ensures done <==> Coalesces(old(State()), current)
      ensures segments == if done then old(segments)[..|old(segments)| - 1]
                                       + [Segment(old(segments)[|old(segments)| - 1].start, current)]
                          else old(segments)
    {
      if segments == [] {
        return false;
      }
      var previous := segments[|segments| - 1];
      var previousAxis := AxisAlignedDelta(previous.start, previous.end);
      var currentAxis := AxisAlignedDelta(previous.end, current);
      if previousAxis == None || currentAxis == None {
        return false;
      }
      if previousAxis.value.0 != currentAxis.value.0 || previousAxis.value.1 != currentAxis.value.1 {
        return false;
      }
      segments := segments[|segments| - 1 := Segment(previous.start, current)];
      return true;
    }

    method Render(kind: Kind)
      requires kind == ResetAll || segments != []
      modifies this`line, this`nextLine, this`opsSinceFullSync, this`sent
      ensures State() == Rendered(old(State()), kind)
    {
      var created := line == None;
      if created {
        line, nextLine := Some(nextLine), nextLine + 1;
      }
      if created || kind == ResetAll || opsSinceFullSync >= FULL_SYNC_EVERY {
        opsSinceFullSync := 0;
        sent := sent + [Op(line.value, ResetAll, Values(segments), 0)];
      } else {
        opsSinceFullSync := opsSinceFullSync + 1;
        var base := if kind == AppendOne then |segments| - 1 else |segments|;
        sent := sent + [Op(line.value, kind, Values([segments[|segments| - 1]]), base)];
      }
    }

    method RecordPoint(point: Point, time: real)
      modifies this
      ensures State() == Recorded(config, old(State()), point, time)
    {
      hide Continues, CloserThan, Rendered;
      if !config.hasScene {
        return;
      }
      if lastPoint == None || lastTime == None {
        lastPoint, lastTime := Some(point), Some(time);
        return;
      }
      if CloserThan(lastPoint.value, point, config.minDistance) {
        return;
      }
      ghost var extended := Extended(config, State(), point);
      var coalesced := CoalesceLastSegment(point);
      if coalesced {
        assert segments == extended.0;
        lastPoint, lastTime := Some(point), Some(time);
        Render(ReplaceLastOne);
        return;
      }
      segments := segments + [Segment(lastPoint.value, point)];
      var pruned := |segments| > config.maxSegments;
      if pruned {
        segments := SliceFrom(segments, -config.maxSegments);
      }
      lastPoint, lastTime := Some(point), Some(time);
      Render(if pruned then ResetAll else AppendOne);
    }
  }

  /* ----- The replica in the browser ----- */

  datatype Replica = Replica(positions: seq<int>, stale: bool)

  function Delivered(store: map<nat, Replica>, op: Op): map<nat, Replica> {
    if op.kind == ResetAll then store[op.line := Replica(op.values, false)]
    else if op.line !in store then store
    else
      var state := store[op.line];
      if state.stale || |state.positions| != op.base * 6 then store[op.line := state.(stale := true)]
      else if op.kind == AppendOne then store[op.line := state.(positions := state.positions + op.values)]
      else
        var kept := if |state.positions| >= 6 then |state.positions| - 6 else 0;
        store[op.line := state.(positions := state.positions[..kept] + op.values)]
  }

  /** Object numbers not handed out yet are unknown to the browser. */
  ghost predicate FreshLines(store: map<nat, Replica>, l: Layer) {
    && (forall n | n in store :: n < l.nextLine)
    && (l.line.Some? ==> l.line.value < l.nextLine)
  }

  /** The browser shows nothing or exactly the server's formatted path for the current line object. */
  ghost predicate NothingOrExact(store: map<nat, Replica>, l: Layer) {
    l.line.Some? && l.line.value in store ==> store[l.line.value] == Replica(Values(l.segments), false)
  }

  /** As before, or the browser knows that it is out of date. */
  ghost predicate NothingStaleOrExact(store: map<nat, Replica>, l: Layer) {
    l.line.Some? && l.line.value in store ==>
      store[l.line.value].stale || store[l.line.value].positions == Values(l.segments)
  }

  /** As before, or it lacks segments, which the next operation's base will reveal. */
  ghost predicate AtMostBehind(store: map<nat, Replica>, l: Layer) {
    l.line.Some? && l.line.value in store ==>
      || store[l.line.value].stale
      || store[l.line.value].positions == Values(l.segments)
      || |store[l.line.value].positions| < 6 * |l.segments|
  }

  /* ----- One operation ----- */

  /** How the segments change with each kind of operation. */
  ghost predicate Follows(old_: seq<Segment>, segments: seq<Segment>, kind: Kind) {
    match kind
    case ResetAll => true
    case AppendOne => segments != [] && segments[..|segments| - 1] == old_
    case ReplaceLastOne =>
      segments != [] && old_ != [] && segments[..|segments| - 1] == old_[..|old_| - 1]
  }

  lemma ValuesOfLast(segments: seq<Segment>)
    requires segments != []
    ensures Values(segments) == Values(segments[..|segments| - 1]) + SegmentValues(segments[|segments| - 1])
  {
  }

  lemma SameAfterFront(front: seq<int>, a: seq<int>, b: seq<int>)
    ensures front + a == front + b <==> a == b
  {
    if front + a == front + b {
      assert (front + a)[|front|..] == a && (front + b)[|front|..] == b;
    }
  }

  lemma SameBeforeTail(a: seq<int>, b: seq<int>, tail: seq<int>)
    ensures a + tail == b + tail <==> a == b
  {
    if a + tail == b + tail {
      assert (a + tail)[..|a|] == a && (b + tail)[..|b|] == b;
    }
  }

  lemma ValuesOfOne(s: Segment)
    ensures Values([s]) == SegmentValues(s)
  {
    assert [s][..0] == [];
  }

  /** What delivering the operation just sent does to a replica that is exact, stale, behind or absent. */
  lemma RenderedDelivers(l: Layer, segments: seq<Segment>, kind: Kind, store: map<nat, Replica>)
    requires Follows(l.segments, segments, kind) && FreshLines(store, l)
    ensures var l' := Rendered(l.(segments := segments), kind);
            var op := l'.sent[|l'.sent| - 1];
            var store' := Delivered(store, op);
            && FreshLines(store', l') && l'.line.Some? && op.line == l'.line.value
            && (NothingOrExact(store, l) ==> NothingOrExact(store', l'))
            && (AtMostBehind(store, l) ==> NothingStaleOrExact(store', l'))
            && (op.kind == ResetAll ==> store'[op.line] == Replica(Values(segments), false))
  {
    hide SegmentValues;
    var l' := Rendered(l.(segments := segments), kind);
    var op := l'.sent[|l'.sent| - 1];
    if op.kind != ResetAll {
      ValuesOfOne(segments[|segments| - 1]);
      assert Values(segments) == Values(segments[..|segments| - 1]) + op.values;
      if kind == ReplaceLastOne {
        assert Values(l.segments)[..6 * |l.segments| - 6] == Values(l.segments[..|l.segments| - 1]);
      }
    }
  }

  /** Losing an append leaves a replica at most behind. */
  lemma LostAppend(l: Layer, segments: seq<Segment>, store: map<nat, Replica>)
    requires Follows(l.segments, segments, AppendOne) && FreshLines(store, l) && AtMostBehind(store, l)
    ensures var l' := Rendered(l.(segments := segments), AppendOne); FreshLines(store, l') && AtMostBehind(store, l')
  {
  }

  /** A replica that missed an append is marked stale by the next incremental operation. */
  lemma BehindGoesStale(l: Layer, segments: seq<Segment>, kind: Kind, store: map<nat, Replica>)
    requires Follows(l.segments, segments, kind) && l.line.Some? && l.line.value in store
    requires !store[l.line.value].stale && |store[l.line.value].positions| < 6 * |l.segments|
    ensures var l' := Rendered(l.(segments := segments), kind);
            var op := l'.sent[|l'.sent| - 1];
            var replica := Delivered(store, op)[l.line.value];
            if op.kind == ResetAll then replica == Replica(Values(segments), false)
            else replica == Replica(store[l.line.value].positions, true)
  {
  }

  /* ----- Runs ----- */

  lemma ExtendedFollows(c: Config, l: Layer, point: Point)
    requires Records(c, l, point)
    ensures Follows(l.segments, Extended(c, l, point).0, Extended(c, l, point).1)
  {
  }

  ghost function AfterCalls(c: Config, l: Layer, calls: seq<Call>): Layer {
    if calls == [] then l else AfterCall(c, AfterCalls(c, l, calls[..|calls| - 1]), calls[|calls| - 1])
  }

  /** A call sends at most one operation. */
  lemma CallSends(c: Config, l: Layer, call: Call)
    ensures var l' := AfterCall(c, l, call);
            && |l.sent| <= |l'.sent| <= |l.sent| + 1 && l'.sent[..|l.sent|] == l.sent
            && (|l'.sent| > |l.sent| <==> call.Record? && Records(c, l, call.point))
  {
    hide CloserThan, Continues, Values;
  }

  /** The store after the operation of a call, if it sent one. */
  ghost function Received(c: Config, l: Layer, call: Call, store: map<nat, Replica>): map<nat, Replica> {
    var l' := AfterCall(c, l, call);
    if |l'.sent| > |l.sent| then Delivered(store, l'.sent[|l'.sent| - 1]) else store
  }

  lemma ReceivingIsSafe(c: Config, l: Layer, call: Call, store: map<nat, Replica>)
    requires FreshLines(store, l)
    ensures var l', store' := AfterCall(c, l, call), Received(c, l, call, store);
            && FreshLines(store', l')
            && (NothingOrExact(store, l) ==> NothingOrExact(store', l'))
            && (AtMostBehind(store, l) ==> AtMostBehind(store', l'))
            && (AtMostBehind(store, l) && |l'.sent| > |l.sent| ==> NothingStaleOrExact(store', l'))
  {
    hide Delivered, Rendered, Extended, Values, NothingStaleOrExact, CloserThan;
    CallSends(c, l, call);
    if call.Record? && Records(c, l, call.point) {
      var (segments, kind) := Extended(c, l, call.point);
      ExtendedFollows(c, l, call.point);
      var l1 := l.(lastPoint := Some(call.point), lastTime := Some(call.time));
      RenderedDelivers(l1, segments, kind, store);
      StaleOrExactIsAtMostBehind(Received(c, l, call, store), AfterCall(c, l, call));
    }
  }

  lemma StaleOrExactIsAtMostBehind(store: map<nat, Replica>, l: Layer)
    ensures NothingStaleOrExact(store, l) ==> AtMostBehind(store, l)
  {
  }

  /** The browser's store after every operation of a run. */
  ghost function ReceivedAll(c: Config, l: Layer, calls: seq<Call>, store: map<nat, Replica>): map<nat, Replica> {
    if calls == [] then store
    else
      var front := calls[..|calls| - 1];
      Received(c, AfterCalls(c, l, front), calls[|calls| - 1], ReceivedAll(c, l, front, store))
  }

  /** A browser that joins at any moment of any run and from then on receives every operation shows, at every later
      moment, nothing or exactly the server's path. */
  lemma {:induction false} LateJoinerIsNeverWrong(c: Config, l: Layer, calls: seq<Call>)
    requires l.line.Some? ==> l.line.value < l.nextLine
    ensures var l', store := AfterCalls(c, l, calls), ReceivedAll(c, l, calls, map[]);
            FreshLines(store, l') && NothingOrExact(store, l')
  {
    hide Received, AfterCall, NothingOrExact;
    if calls == [] {
      EmptyStoreShowsNothing(l);
    } else {
      var front := calls[..|calls| - 1];
      LateJoinerIsNeverWrong(c, l, front);
      ReceivingIsSafe(c, AfterCalls(c, l, front), calls[|calls| - 1], ReceivedAll(c, l, front, map[]));
    }
  }

  lemma EmptyStoreShowsNothing(l: Layer)
    ensures NothingOrExact(map[], l)
  {
  }

  /* ----- Lost operations ----- */

  datatype Delivery = Delivery(call: Call, arrives: bool)

  ghost function CallsOf(deliveries: seq<Delivery>): (calls: seq<Call>)
    ensures |calls| == |deliveries|
  {
    if deliveries == [] then []
    else CallsOf(deliveries[..|deliveries| - 1]) + [deliveries[|deliveries| - 1].call]
  }

  /** The operation a call sends, if any. */
  ghost function SentBy(c: Config, l: Layer, call: Call): Option<Op> {
    var l' := AfterCall(c, l, call);
    if |l'.sent| > |l.sent| then Some(l'.sent[|l'.sent| - 1]) else None
  }

  ghost function ReceivedSome(c: Config, l: Layer, deliveries: seq<Delivery>, store: map<nat, Replica>)
    : map<nat, Replica>
  {
    if deliveries == [] then store
    else
      var front, last := deliveries[..|deliveries| - 1], deliveries[|deliveries| - 1];
      var before := ReceivedSome(c, l, front, store);
      if last.arrives then Received(c, AfterCalls(c, l, CallsOf(front)), last.call, before) else before
  }

  /** Nothing but incremental appends is lost. */
  ghost predicate OnlyAppendsLost(c: Config, l: Layer, deliveries: seq<Delivery>) {
    deliveries == [] ||
    var front, last := deliveries[..|deliveries| - 1], deliveries[|deliveries| - 1];
    && OnlyAppendsLost(c, l, front)
    && (!last.arrives ==>
          var op := SentBy(c, AfterCalls(c, l, CallsOf(front)), last.call);
          op.Some? ==> op.value.kind == AppendOne)
  }

  lemma LosingAppendIsSafe(c: Config, l: Layer, call: Call, store: map<nat, Replica>)
    requires FreshLines(store, l) && AtMostBehind(store, l)
    requires SentBy(c, l, call).Some? ==> SentBy(c, l, call).value.kind == AppendOne
    ensures var l' := AfterCall(c, l, call); FreshLines(store, l') && AtMostBehind(store, l')
  {
    hide Values, CloserThan, Continues;
    CallSends(c, l, call);
    if call.Record? && Records(c, l, call.point) {
      var (segments, kind) := Extended(c, l, call.point);
      ExtendedFollows(c, l, call.point);
      LostAppend(l.(lastPoint := Some(call.point), lastTime := Some(call.time)), segments, store);
    }
  }

  lemma CallsOfFront(deliveries: seq<Delivery>)
    requires deliveries != []
    ensures CallsOf(deliveries)[..|deliveries| - 1] == CallsOf(deliveries[..|deliveries| - 1])
    ensures CallsOf(deliveries)[|deliveries| - 1] == deliveries[|deliveries| - 1].call
  {
  }

  /** A browser that loses any number of appends, and joined at any moment, still never shows a wrong path once an
      operation reaches it: after each operation that arrives it shows nothing, knows that it is stale, or is exact. */
  lemma {:induction false} LostAppendsAreNoticed(c: Config, l: Layer, deliveries: seq<Delivery>)
    requires (l.line.Some? ==> l.line.value < l.nextLine) && OnlyAppendsLost(c, l, deliveries)
    ensures var l', store := AfterCalls(c, l, CallsOf(deliveries)), ReceivedSome(c, l, deliveries, map[]);
            && FreshLines(store, l') && AtMostBehind(store, l')
            && (deliveries != [] ==>
                  var front, last := deliveries[..|deliveries| - 1], deliveries[|deliveries| - 1];
                  var op := SentBy(c, AfterCalls(c, l, CallsOf(front)), last.call);
                  last.arrives && op.Some? ==> NothingStaleOrExact(store, l'))
  {
    hide Received, AfterCall, AtMostBehind, NothingStaleOrExact;
    if deliveries == [] {
      EmptyStoreIsBehindNothing(l);
    } else {
      var front, last := deliveries[..|deliveries| - 1], deliveries[|deliveries| - 1];
      var l1, before := AfterCalls(c, l, CallsOf(front)), ReceivedSome(c, l, front, map[]);
      LostAppendsAreNoticed(c, l, front);
      CallsOfFront(deliveries);
      if last.arrives {
        ReceivingIsSafe(c, l1, last.call, before);
      } else {
        LosingAppendIsSafe(c, l1, last.call, before);
      }
    }
  }

  lemma EmptyStoreIsBehindNothing(l: Layer)
    ensures AtMostBehind(map[], l)
  {
  }

  /** Losing a replacement is not noticed: the replica keeps the right length, so the next base matches although the
      path is wrong. The full operations in between are what repairs it. */
  lemma LostReplacementGoesUnnoticed(c: Config, l: Layer, point: Point, time: real, store: map<nat, Replica>)
    requires Records(c, l, point) && l.line.Some? && l.line.value in store && NothingOrExact(store, l)
    requires SentBy(c, l, Record(point, time)).Some?
    requires SentBy(c, l, Record(point, time)).value.kind == ReplaceLastOne
    ensures var l' := Recorded(c, l, point, time);
            var replica := store[l.line.value];
            && l'.line == l.line && !replica.stale && |replica.positions| == 6 * |l'.segments|
            && (replica.positions == Values(l'.segments) <==>
                PointValues(l.segments[|l.segments| - 1].end) == PointValues(point))
  {
    hide CloserThan, Continues, Millionths, Values, Extended, Records, Recorded, SentBy;
    IncrementalOp(c, l, point, time);
    RecordedSegments(c, l, point, time);
    CoalescedSegments(c, l, point);
    var segments, n := Extended(c, l, point).0, |l.segments|;
    var last, merged := l.segments[n - 1], segments[n - 1];
    assert segments[..n - 1] == l.segments[..n - 1];
    ValuesOfLast(l.segments);
    ValuesOfLast(segments);
    SameAfterFront(Values(l.segments[..n - 1]), SegmentValues(last), SegmentValues(merged));
    SameAfterFront(PointValues(last.start), PointValues(last.end), PointValues(point));
  }

  lemma CoalescedSegments(c: Config, l: Layer, point: Point)
    requires Records(c, l, point) && Extended(c, l, point).1 == ReplaceLastOne
    ensures l.segments != []
    ensures Extended(c, l, point).0
            == l.segments[..|l.segments| - 1] + [Segment(l.segments[|l.segments| - 1].start, point)]
  {
    hide CloserThan, Continues;
  }

  /** What a recorded point sends on an existing line object, when it sends an incremental operation. */
  lemma IncrementalOp(c: Config, l: Layer, point: Point, time: real)
    requires Records(c, l, point) && l.line.Some?
    requires SentBy(c, l, Record(point, time)).Some? && SentBy(c, l, Record(point, time)).value.kind != ResetAll
    ensures var op, segments := SentBy(c, l, Record(point, time)).value, Recorded(c, l, point, time).segments;
            && segments == Extended(c, l, point).0 && segments != []
            && op.kind == Extended(c, l, point).1 && op.line == l.line.value && op.base == |l.segments|
            && op.values == Values([segments[|segments| - 1]])
  {
    hide CloserThan, Continues, Values;
  }

  lemma RecordedSegments(c: Config, l: Layer, point: Point, time: real)
    requires Records(c, l, point)
    ensures Recorded(c, l, point, time).segments == Extended(c, l, point).0
    ensures l.line.Some? ==> Recorded(c, l, point, time).line == l.line
  {
    hide CloserThan, Continues, Values;
  }

  lemma CountGrowsExactlyWhen(c: Config, l: Layer, point: Point)
    requires Records(c, l, point) && 1 <= c.maxSegments && |l.segments| <= c.maxSegments
    ensures |Extended(c, l, point).0| != |l.segments| <==> Extended(c, l, point).1 == AppendOne
  {
    hide CloserThan, Continues;
  }

  /** An operation of any kind gets lost on its way to an exact replica. The next incremental one marks the replica
      stale exactly when the number of segments changed meanwhile; within the cap that is, when a segment was appended.
      After a lost replacement, or a lost full operation that dropped the oldest segment, it is applied instead, and
      then the replica is right exactly when the segments it did not carry still format to the same digits. */
  lemma LostOperationIsNoticedExactlyWhen(c: Config, l: Layer, point: Point, time: real, next: Point, nextTime: real,
                                          store: map<nat, Replica>)
    requires Records(c, l, point) && l.line.Some? && l.line.value in store && NothingOrExact(store, l)
    requires var l' := Recorded(c, l, point, time);
             && Records(c, l', next)
             && SentBy(c, l', Record(next, nextTime)).Some?
             && SentBy(c, l', Record(next, nextTime)).value.kind != ResetAll
    ensures var l' := Recorded(c, l, point, time);
            var op, l'' := SentBy(c, l', Record(next, nextTime)).value, Recorded(c, l', next, nextTime);
            var replica := Delivered(store, op)[l.line.value];
            && (replica.stale <==> |l'.segments| != |l.segments|)
            && (1 <= c.maxSegments && |l.segments| <= c.maxSegments ==>
                  (replica.stale <==> Extended(c, l, point).1 == AppendOne))
            && (!replica.stale ==>
                  var kept := if op.kind == AppendOne then |l.segments| else |l.segments| - 1;
                  kept >= 0 && (replica.positions == Values(l''.segments)
                                <==> Values(l'.segments[..kept]) == Values(l.segments[..kept])))
  {
    hide CloserThan, Continues, Values, Extended, Records, SentBy, Recorded;
    var l' := Recorded(c, l, point, time);
    var op := SentBy(c, l', Record(next, nextTime)).value;
    RecordedSegments(c, l, point, time);
    IncrementalOp(c, l', next, nextTime);
    ExtendedFollows(c, l', next);
    if 1 <= c.maxSegments && |l.segments| <= c.maxSegments {
      CountGrowsExactlyWhen(c, l, point);
    }
    if |l'.segments| == |l.segments| {
      IncrementOfOutdated(l.segments, l'.segments, Recorded(c, l', next, nextTime).segments, op.kind);
    }
  }

  /** An incremental operation applied to the formatted values of other segments than those it extends. */
  lemma IncrementOfOutdated(shown: seq<Segment>, current: seq<Segment>, extended: seq<Segment>, kind: Kind)
    requires |shown| == |current| && kind != ResetAll && Follows(current, extended, kind)
    ensures var kept := if kind == AppendOne then |shown| else |shown| - 1;
            && kept >= 0
            && (Values(shown)[..6 * kept] + Values([extended[|extended| - 1]]) == Values(extended)
                <==> Values(current[..kept]) == Values(shown[..kept]))
  {
    hide Values, SegmentValues;
    var kept := if kind == AppendOne then |shown| else |shown| - 1;
    var last := extended[|extended| - 1];
    KeptFront(shown, current, extended, kind);
    ValuesOfOne(last);
    ValuesOfLast(extended);
    KeptValues(shown, kept);
    SameBeforeTail(Values(shown[..kept]), Values(current[..kept]), SegmentValues(last));
  }

  lemma KeptFront(shown: seq<Segment>, current: seq<Segment>, extended: seq<Segment>, kind: Kind)
    requires |shown| == |current| && kind != ResetAll && Follows(current, extended, kind)
    ensures var kept := if kind == AppendOne then |shown| else |shown| - 1;
            kept >= 0 && |extended| == kept + 1 && extended[..kept] == current[..kept]
  {
    if kind == AppendOne {
      assert current[..|current|] == current;
    }
  }

  lemma KeptValues(shown: seq<Segment>, kept: nat)
    requires |shown| - 1 <= kept <= |shown|
    ensures Values(shown)[..6 * kept] == Values(shown[..kept])
  {
    if kept == |shown| {
      assert shown[..kept] == shown;
    }
  }

  lemma OneMoreDelivery(c: Config, l: Layer, front: seq<Delivery>, last: Delivery, store: map<nat, Replica>)
    ensures var l1, before := AfterCalls(c, l, CallsOf(front)), ReceivedSome(c, l, front, store);
            && AfterCalls(c, l, CallsOf(front + [last])) == AfterCall(c, l1, last.call)
            && ReceivedSome(c, l, front + [last], store)
               == if last.arrives then Received(c, l1, last.call, before) else before
  {
    hide AfterCall, Received;
    CallsOfFront(front + [last]);
    assert (front + [last])[..|front|] == front;
  }

  /** Two moves along x, which coalesce, and then one along y; the second one gets lost. */
  ghost function ThreeMoves(): seq<Delivery> {
    [Delivery(Record(Point(0.0, 0.0, 0.0), 0.0), true), Delivery(Record(Point(1.0, 0.0, 0.0), 1.0), true),
     Delivery(Record(Point(2.0, 0.0, 0.0), 2.0), false), Delivery(Record(Point(2.0, 1.0, 0.0), 3.0), true)]
  }

  /** A new layer and a browser that misses the second move. It applies the third, does not know that it is out of
      date, and leaves a gap between 1 and 2. */
  lemma LostReplacementLeavesAGap()
    ensures var c, start := Config(true, 0.5, 100), Layer([], None, None, None, 0, 0, []);
            var l, store := AfterCalls(c, start, CallsOf(ThreeMoves())), ReceivedSome(c, start, ThreeMoves(), map[]);
            var o, a, b, d := Point(0.0, 0.0, 0.0), Point(1.0, 0.0, 0.0), Point(2.0, 0.0, 0.0), Point(2.0, 1.0, 0.0);
            && l.segments == [Segment(o, b), Segment(b, d)] && l.line == Some(0)
            && store == map[0 := Replica(Values([Segment(o, a), Segment(b, d)]), false)]
            && store[0].positions != Values(l.segments)
  {
    hide ReceivedSome, AfterCalls, CallsOf, CloserThan, Continues, Values, Recorded, Delivered;
    var c, start := Config(true, 0.5, 100), Layer([], None, None, None, 0, 0, []);
    var o, a, b, d := Point(0.0, 0.0, 0.0), Point(1.0, 0.0, 0.0), Point(2.0, 0.0, 0.0), Point(2.0, 1.0, 0.0);
    var all := ThreeMoves();
    OneMoreDelivery(c, start, [], all[0], map[]);
    OneMoreDelivery(c, start, [all[0]], all[1], map[]);
    OneMoreDelivery(c, start, [all[0], all[1]], all[2], map[]);
    OneMoreDelivery(c, start, [all[0], all[1], all[2]], all[3], map[]);
    assert [] + [all[0]] == [all[0]] && [all[0]] + [all[1]] == [all[0], all[1]];
    assert [all[0], all[1]] + [all[2]] == [all[0], all[1], all[2]] && [all[0], all[1], all[2]] + [all[3]] == all;
    NothingDelivered(c, start);
    FirstMove(c, start, o, a);
    var l2 := Layer([Segment(o, a)], Some(a), Some(1.0), Some(0), 1, 0, [Op(0, ResetAll, Values([Segment(o, a)]), 0)]);
    SecondMove(c, l2, o, a, b);
    ThirdMove(c, Recorded(c, l2, b, 2.0), o, b, d);
    AppendStillFits(Segment(o, a), Segment(b, d));
    GapShows(o, a, b, d);
  }

  lemma NothingDelivered(c: Config, l: Layer)
    ensures AfterCalls(c, l, CallsOf([])) == l && ReceivedSome(c, l, [], map[]) == map[]
  {
  }

  lemma FirstMove(c: Config, l: Layer, o: Point, a: Point)
    requires c == Config(true, 0.5, 100) && l == Layer([], None, None, None, 0, 0, [])
    requires o == Point(0.0, 0.0, 0.0) && a == Point(1.0, 0.0, 0.0)
    ensures var l1 := Recorded(c, l, o, 0.0);
            var sent := Op(0, ResetAll, Values([Segment(o, a)]), 0);
            && l1 == l.(lastPoint := Some(o), lastTime := Some(0.0))
            && Recorded(c, l1, a, 1.0) == Layer([Segment(o, a)], Some(a), Some(1.0), Some(0), 1, 0, [sent])
            && Delivered(map[], sent) == map[0 := Replica(sent.values, false)]
  {
    hide Values, CloserThan, Continues;
    StepIsFar(o, a);
    assert [] + [Segment(o, a)] == [Segment(o, a)];
  }

  lemma SecondMove(c: Config, l: Layer, o: Point, a: Point, b: Point)
    requires c == Config(true, 0.5, 100) && o == Point(0.0, 0.0, 0.0) && a == Point(1.0, 0.0, 0.0)
    requires b == Point(2.0, 0.0, 0.0) && l.segments == [Segment(o, a)] && l.lastPoint == Some(a) && l.lastTime.Some?
    requires l.line == Some(0) && l.opsSinceFullSync == 0
    ensures var l' := Recorded(c, l, b, 2.0);
            && l'.segments == [Segment(o, b)] && l'.lastPoint == Some(b) && l'.lastTime.Some? && l'.line == Some(0)
            && l'.opsSinceFullSync == 1
  {
    hide Values, CloserThan, Continues;
    StepIsFar(a, b);
    GoesOnAlongX(o, a, b);
    assert l.segments[..0] + [Segment(o, b)] == [Segment(o, b)];
  }

  lemma GoesOnAlongX(o: Point, a: Point, b: Point)
    requires o == Point(0.0, 0.0, 0.0) && a == Point(1.0, 0.0, 0.0) && b == Point(2.0, 0.0, 0.0)
    ensures Continues(Segment(o, a), b)
  {
  }

  lemma TurnsOff(o: Point, b: Point, d: Point)
    requires o == Point(0.0, 0.0, 0.0) && b == Point(2.0, 0.0, 0.0) && d == Point(2.0, 1.0, 0.0)
    ensures !Continues(Segment(o, b), d)
  {
  }

  lemma StepIsFar(p: Point, q: Point)
    requires p.z == q.z && ((q.x - p.x == 1.0 && p.y == q.y) || (p.x == q.x && q.y - p.y == 1.0))
    ensures !CloserThan(p, q, 0.5)
  {
  }

  lemma ThirdMove(c: Config, l: Layer, o: Point, b: Point, d: Point)
    requires c == Config(true, 0.5, 100) && o == Point(0.0, 0.0, 0.0)
    requires b == Point(2.0, 0.0, 0.0) && d == Point(2.0, 1.0, 0.0)
    requires l.segments == [Segment(o, b)] && l.lastPoint == Some(b) && l.lastTime.Some? && l.line == Some(0)
    requires l.opsSinceFullSync == 1
    ensures var l' := Recorded(c, l, d, 3.0);
            && l'.segments == [Segment(o, b), Segment(b, d)] && l'.line == Some(0)
            && l'.sent == l.sent + [Op(0, AppendOne, Values([Segment(b, d)]), 1)]
  {
    hide Values, CloserThan, Continues;
    StepIsFar(b, d);
    TurnsOff(o, b, d);
    assert [Segment(o, b)] + [Segment(b, d)] == [Segment(o, b), Segment(b, d)];
    assert Extended(c, l, d) == ([Segment(o, b), Segment(b, d)], AppendOne);
  }

  lemma AppendStillFits(s: Segment, t: Segment)
    ensures Delivered(map[0 := Replica(Values([s]), false)], Op(0, AppendOne, Values([t]), 1))
            == map[0 := Replica(Values([s, t]), false)]
  {
    TwoSegments(s, t);
  }

  lemma TwoSegments(s: Segment, t: Segment)
    ensures Values([s, t]) == SegmentValues(s) + SegmentValues(t) && Values([s, t]) == Values([s]) + Values([t])
  {
    hide SegmentValues;
    ValuesOfOne(s);
    ValuesOfOne(t);
    assert [s, t][..1] == [s];
  }

  lemma GapShows(o: Point, a: Point, b: Point, d: Point)
    requires a.x == 1.0 && b.x == 2.0
    ensures Values([Segment(o, a), Segment(b, d)]) != Values([Segment(o, b), Segment(b, d)])
  {
    TwoSegments(Segment(o, a), Segment(b, d));
    TwoSegments(Segment(o, b), Segment(b, d));
    assert Values([Segment(o, a), Segment(b, d)])[3] == Millionths(1.0) == 1000000;
    assert Values([Segment(o, b), Segment(b, d)])[3] == Millionths(2.0) == 2000000;
  }

  /* ----- Full operations come regularly, and the path stays within its cap ----- */

  /** How many incremental operations have gone out since the last full one. */
  function SinceFull(ops: seq<Op>): nat {
    if ops == [] || ops[|ops| - 1].kind == ResetAll then 0 else 1 + SinceFull(ops[..|ops| - 1])
  }

  /** Nowhere in the stream do more than 40 incremental operations follow each other. */
  ghost predicate OftenFull(ops: seq<Op>) {
    forall k | 0 <= k <= |ops| :: SinceFull(ops[..k]) <= 40
  }

  ghost predicate Counts(l: Layer) {
    OftenFull(l.sent) && (l.line.Some? ==> l.opsSinceFullSync == SinceFull(l.sent))
  }

  lemma CallKeepsCount(c: Config, l: Layer, call: Call)
    requires Counts(l)
    ensures Counts(AfterCall(c, l, call))
  {
    hide CloserThan, Continues, Values, SliceFrom;
    CallSends(c, l, call);
    var l' := AfterCall(c, l, call);
    assert l.sent[..|l.sent|] == l.sent && l'.sent[..|l'.sent|] == l'.sent;
    forall k | 0 <= k <= |l'.sent|
      ensures SinceFull(l'.sent[..k]) <= 40
    {
      if k <= |l.sent| {
        assert l'.sent[..k] == l.sent[..k];
      }
    }
  }

  lemma {:induction false} FullSyncsComeRegularly(c: Config, calls: seq<Call>)
    ensures OftenFull(AfterCalls(c, Layer([], None, None, None, 0, 0, []), calls).sent)
  {
    CountsAfter(c, calls);
  }

  lemma {:induction false} CountsAfter(c: Config, calls: seq<Call>)
    ensures Counts(AfterCalls(c, Layer([], None, None, None, 0, 0, []), calls))
  {
    hide AfterCall, Counts;
    if calls == [] {
      EmptyCounts();
    } else {
      CountsAfter(c, calls[..|calls| - 1]);
      CallKeepsCount(c, AfterCalls(c, Layer([], None, None, None, 0, 0, []), calls[..|calls| - 1]),
                     calls[|calls| - 1]);
    }
  }

  lemma EmptyCounts()
    ensures Counts(Layer([], None, None, None, 0, 0, []))
  {
  }

  /** Recording keeps the number of segments within the cap exactly when the cap is positive or no new segment is
      started: with a cap of zero the slice that should drop everything keeps everything. */
  lemma CapIsKeptExactlyWhen(c: Config, l: Layer, point: Point, time: real)
    requires |l.segments| <= c.maxSegments
    ensures |Recorded(c, l, point, time).segments| <= c.maxSegments
            <==> c.maxSegments >= 1 || !Records(c, l, point)
  {
    hide CloserThan, Continues;
  }

  /** With a cap of zero, one segment is one too many and stays. */
  lemma ZeroCapKeepsASegment()
    ensures var c := Config(true, 0.0, 0);
            var p, q := Point(0.0, 0.0, 0.0), Point(1.0, 0.0, 0.0);
            Recorded(c, Recorded(c, Layer([], None, None, None, 0, 0, []), p, 0.0), q, 1.0).segments == [Segment(p, q)]
  {
  }

  /** Consecutive segments share their end points. */
  ghost predicate Unbroken(segments: seq<Segment>) {
    forall i | 0 <= i < |segments| - 1 :: segments[i].end == segments[i + 1].start
  }

  ghost predicate EndsAt(segments: seq<Segment>, point: Option<Point>) {
    segments != [] ==> point == Some(segments[|segments| - 1].end)
  }

  /** The path is one unbroken line that ends at the reference point. */
  ghost predicate Continuous(l: Layer) {
    Unbroken(l.segments) && EndsAt(l.segments, l.lastPoint) && (l.segments != [] ==> l.lastTime.Some?)
  }

  lemma TailContinues(segments: seq<Segment>, i: int, point: Option<Point>)
    requires Unbroken(segments) && EndsAt(segments, point)
    ensures Unbroken(SliceFrom(segments, i)) && EndsAt(SliceFrom(segments, i), point)
  {
  }

  lemma ExtendedContinues(c: Config, l: Layer, point: Point)
    requires Records(c, l, point) && Continuous(l)
    ensures var segments := Extended(c, l, point).0; Unbroken(segments) && EndsAt(segments, Some(point))
  {
    hide CloserThan, Continues, SliceFrom;
    if !Coalesces(l, point) {
      TailContinues(l.segments + [Segment(l.lastPoint.value, point)], -c.maxSegments, Some(point));
    }
  }

  /** Recording and clearing keep the path one unbroken line that ends where the last point was recorded. */
  lemma CallKeepsContinuity(c: Config, l: Layer, call: Call)
    requires Continuous(l)
    ensures Continuous(AfterCall(c, l, call))
  {
    hide CloserThan, Continues, Values, Extended, Unbroken, SliceFrom;
    if call.Record? && Records(c, l, call.point) {
      ExtendedContinues(c, l, call.point);
    } else {
      EmptyContinues(l.lastPoint);
    }
  }

  lemma EmptyContinues(point: Option<Point>)
    ensures Unbroken([]) && EndsAt([], point)
  {
  }

  /* ----- In coordinates ----- */

  /** A layer that has seen a point, before the next one is recorded. */
  predicate Watching(c: Config, l: Layer, last: Point) {
    c.hasScene && l.lastPoint == Some(last) && l.lastTime.Some?
  }

  /** A point is passed over exactly when its squared distance from the last one is below the squared minimum; any other
      point is remembered and sends one operation. */
  lemma RecordedExactlyWhen(c: Config, l: Layer, last: Point, point: Point, time: real)
    requires Watching(c, l, last)
    ensures var dx, dy, dz := point.x - last.x, point.y - last.y, point.z - last.z;
            var near := c.minDistance > 0.0 && dx * dx + dy * dy + dz * dz < c.minDistance * c.minDistance;
            var l' := Recorded(c, l, point, time);
            if near then l' == l
            else l'.lastPoint == Some(point) && l'.lastTime == Some(time) && |l'.sent| == |l.sent| + 1
  {
    hide Continues, Values, Millionths, SliceFrom;
  }

  /** A point that lies at least the minimum away along any one axis is recorded, whatever the other coordinates. */
  lemma FarAlongAnAxisIsRecorded(c: Config, l: Layer, last: Point, point: Point, time: real)
    requires Watching(c, l, last) && c.minDistance > 0.0
    requires point.x - last.x >= c.minDistance || last.x - point.x >= c.minDistance
             || point.y - last.y >= c.minDistance || last.y - point.y >= c.minDistance
             || point.z - last.z >= c.minDistance || last.z - point.z >= c.minDistance
    ensures Recorded(c, l, point, time).lastPoint == Some(point)
    ensures |Recorded(c, l, point, time).sent| == |l.sent| + 1
  {
    hide Recorded;
    RecordedExactlyWhen(c, l, last, point, time);
    var dx, dy, dz := point.x - last.x, point.y - last.y, point.z - last.z;
    AtLeastSquared(dx, c.minDistance);
    AtLeastSquared(dy, c.minDistance);
    AtLeastSquared(dz, c.minDistance);
  }

  lemma AtLeastSquared(d: real, m: real)
    requires m > 0.0
    ensures d * d >= 0.0
    ensures d >= m || -d >= m ==> d * d >= m * m
  {
    if d >= m {
      assert d * d >= d * m >= m * m;
    } else if -d >= m {
      assert d * d == (-d) * (-d) >= (-d) * m >= m * m;
    }
  }

  /** The last point again is passed over, if there is a minimum at all; without one every point is recorded. */
  lemma RepeatedPoint(c: Config, l: Layer, last: Point, time: real)
    requires Watching(c, l, last)
    ensures c.minDistance > 0.0 ==> Recorded(c, l, last, time) == l
    ensures c.minDistance <= 0.0 ==> |Recorded(c, l, last, time).sent| == |l.sent| + 1
  {
    hide Recorded;
    RecordedExactlyWhen(c, l, last, last, time);
    if c.minDistance > 0.0 { assert c.minDistance * c.minDistance > 0.0; }
  }

  function SwapXY(p: Point): Point {
    Point(p.y, p.x, p.z)
  }

  function SwapYZ(p: Point): Point {
    Point(p.x, p.z, p.y)
  }

  /** The axes count alike: exchanging two of them in both points changes nothing about whether a point is recorded. */
  lemma AxesCountAlike(c: Config, l: Layer, last: Point, point: Point, time: real)
    requires Watching(c, l, last)
    ensures var l1, l2 := l.(lastPoint := Some(SwapXY(last))), l.(lastPoint := Some(SwapYZ(last)));
            var sent := |Recorded(c, l, point, time).sent|;
            sent == |Recorded(c, l1, SwapXY(point), time).sent| == |Recorded(c, l2, SwapYZ(point), time).sent|
  {
    hide Recorded;
    RecordedExactlyWhen(c, l, last, point, time);
    RecordedExactlyWhen(c, l.(lastPoint := Some(SwapXY(last))), SwapXY(last), SwapXY(point), time);
    RecordedExactlyWhen(c, l.(lastPoint := Some(SwapYZ(last))), SwapYZ(last), SwapYZ(point), time);
  }

  ghost predicate Still(d: real, e: real) {
    -0.000001 <= d <= 0.000001 && -0.000001 <= e <= 0.000001
  }

  ghost predicate Onward(d: real, e: real) {
    (d > 0.000001 && e > 0.000001) || (d < -0.000001 && e < -0.000001)
  }

  /** From a to b and from b to c goes on along one axis and keeps the other two, up to a millionth. */
  ghost predicate SameWay(a: Point, b: Point, c: Point) {
    || (Onward(b.x - a.x, c.x - b.x) && Still(b.y - a.y, c.y - b.y) && Still(b.z - a.z, c.z - b.z))
    || (Onward(b.y - a.y, c.y - b.y) && Still(b.x - a.x, c.x - b.x) && Still(b.z - a.z, c.z - b.z))
    || (Onward(b.z - a.z, c.z - b.z) && Still(b.x - a.x, c.x - b.x) && Still(b.y - a.y, c.y - b.y))
  }

  /** The last segment is lengthened exactly when the new motion goes its way. */
  lemma CoalescesExactlyWhen(l: Layer, point: Point)
    ensures Coalesces(l, point)
            <==> l.segments != []
                 && SameWay(l.segments[|l.segments| - 1].start, l.segments[|l.segments| - 1].end, point)
  {
  }

  /** A motion that starts a new segment keeps the newest ones, as many as the cap allows. */
  lemma OldestSegmentsGo(c: Config, l: Layer, last: Point, point: Point, time: real)
    requires Watching(c, l, last) && Records(c, l, point) && !Coalesces(l, point) && c.maxSegments >= 1
    ensures var all, segments := l.segments + [Segment(last, point)], Recorded(c, l, point, time).segments;
            segments == if |all| <= c.maxSegments then all else all[|all| - c.maxSegments..]
  {
    hide Continues, CloserThan, Values;
  }

  /** And one that goes on lengthens the last segment. */
  lemma LastSegmentGrows(c: Config, l: Layer, last: Point, point: Point, time: real)
    requires Watching(c, l, last) && Records(c, l, point) && Coalesces(l, point)
    ensures var n := |l.segments|;
            Recorded(c, l, point, time).segments
            == l.segments[..n - 1] + [Segment(l.segments[n - 1].start, point)]
  {
    hide Continues, CloserThan, Values;
  }

  /** Numbers are sent to the nearest millionth, halves to the even one. */
  lemma NearestMillionth(v: real)
    ensures var m := Millionths(v);
            && -0.5 <= v * 1000000.0 - m as real <= 0.5
            && (v * 1000000.0 - m as real == 0.5 || v * 1000000.0 - m as real == -0.5 ==> m % 2 == 0)
  {
  }

  /** Of a segment six numbers are sent: the start's coordinates and then the end's. */
  lemma SegmentNumbers(s: Segment)
    ensures Values([s]) == [Millionths(s.start.x), Millionths(s.start.y), Millionths(s.start.z),
                            Millionths(s.end.x), Millionths(s.end.y), Millionths(s.end.z)]
  {
    hide Millionths;
    ValuesOfOne(s);
  }

  lemma NumbersOfMany(front: seq<Segment>, s: Segment)
    ensures Values(front + [s]) == Values(front) + Values([s])
  {
    ValuesOfOne(s);
    assert (front + [s])[..|front|] == front;
  }

  /** A full operation goes out for a new line object, for a pruned path, and when 40 incremental ones have gone out
      since the last; nothing else sends one, in any run. */
  lemma FullExactlyAfterForty(c: Config, calls: seq<Call>, point: Point, time: real)
    ensures var l := AfterCalls(c, Layer([], None, None, None, 0, 0, []), calls);
            Records(c, l, point) ==>
              var l' := Recorded(c, l, point, time);
              && |l'.sent| == |l.sent| + 1
              && (l'.sent[|l.sent|].kind == ResetAll
                  <==> l.line == None || SinceFull(l.sent) >= 40
                       || (!Coalesces(l, point) && |l.segments| + 1 > c.maxSegments))
  {
    hide CloserThan, Continues, Values, SliceFrom, AfterCalls, OftenFull;
    CountsAfter(c, calls);
  }

  /** After a clear, the first point is only remembered; the next recorded one starts a new line object with a full
      operation that carries the one segment between them. */
  lemma ClearStartsANewLine(c: Config, l: Layer, p: Point, q: Point, t0: real, t1: real)
    requires c.hasScene && c.maxSegments >= 1
    ensures var l1 := Recorded(c, Cleared(l), p, t0);
            && l1.segments == [] && l1.sent == l.sent && l1.lastPoint == Some(p)
            && (Records(c, l1, q) ==>
                  var l2 := Recorded(c, l1, q, t1);
                  && l2.segments == [Segment(p, q)] && l2.line == Some(l.nextLine) && l2.nextLine == l.nextLine + 1
                  && l2.sent == l.sent + [Op(l.nextLine, ResetAll, Values([Segment(p, q)]), 0)])
  {
    hide CloserThan, Continues, Values;
    assert [] + [Segment(p, q)] == [Segment(p, q)];
  }
}
