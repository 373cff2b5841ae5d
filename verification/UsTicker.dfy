/** The microsecond ticker: pending events in a singly linked list, ordered by 32-bit time that wraps around, and
    handlers that insert and remove events while the due ones are being dispatched. */
module UsTicker {
  import opened Arithmetic

  const TIME_RANGE: nat := 0x1_0000_0000
  const HALF_RANGE: nat := 0x8000_0000

  type Time = t: nat | t < TIME_RANGE

  /** The signed 32-bit difference a - b. */
  function Ahead(a: Time, b: Time): int {
    var d := if a >= b then a - b else a - b + TIME_RANGE;
    if d < HALF_RANGE then d else d - TIME_RANGE
  }

  predicate Due(timestamp: Time, now: Time) {
    Ahead(timestamp, now) <= 0
  }

  class Event {
    var timestamp: Time
    var id: nat
    var next: Event?

    constructor ()
      ensures next == null
    {
      timestamp, id, next := 0, 0, null;
    }
  }

  /** A queued event, with the time and id it was inserted with, and when that was. */
  datatype Entry = Entry(event: Event, time: Time, id: nat, arrival: nat)

  /** Where an event goes: before the first one that is strictly later. */
  ghost function InsertAt(list: seq<Entry>, t: Time): (k: nat)
    ensures k <= |list|
    ensures forall i | 0 <= i < k :: Ahead(t, list[i].time) >= 0
    ensures k < |list| ==> Ahead(t, list[k].time) < 0
  {
    if list == [] || Ahead(t, list[0].time) < 0 then 0 else 1 + InsertAt(list[1..], t)
  }

  /** How many events at the front are due. */
  ghost function DuePrefix(list: seq<Entry>, now: Time): (n: nat)
    ensures n <= |list|
    ensures forall i | 0 <= i < n :: Due(list[i].time, now)
    ensures n < |list| ==> !Due(list[n].time, now)
  {
    if list == [] || !Due(list[0].time, now) then 0 else 1 + DuePrefix(list[1..], now)
  }

  /** Where an event is queued, or the number of queued events. */
  ghost function IndexOf(list: seq<Entry>, event: Event): (k: nat)
    ensures k <= |list|
    ensures forall i | 0 <= i < k :: list[i].event != event
    ensures k < |list| ==> list[k].event == event
  {
    if list == [] || list[0].event == event then 0 else 1 + IndexOf(list[1..], event)
  }

  function Inserted<T>(s: seq<T>, k: nat, x: T): (r: seq<T>)
    requires k <= |s|
    ensures |r| == |s| + 1 && r[k] == x
    ensures forall i | 0 <= i < k :: r[i] == s[i]
    ensures forall i | k < i < |r| :: r[i] == s[i - 1]
  {
    s[..k] + [x] + s[k..]
  }

  function Cut<T>(s: seq<T>, k: nat): (r: seq<T>)
    requires k < |s|
    ensures |r| == |s| - 1
    ensures forall i | 0 <= i < k :: r[i] == s[i]
    ensures forall i | k <= i < |r| :: r[i] == s[i + 1]
  {
    s[..k] + s[k + 1..]
  }

  /* ----- Wrap-around order ----- */

  /** Distance of a time from the start of a window. */
  function Offset(t: Time, start: Time): (d: nat)
    ensures d < TIME_RANGE
  {
    if t >= start then t - start else t - start + TIME_RANGE
  }

  predicate InWindow(t: Time, start: Time) {
    Offset(t, start) < HALF_RANGE
  }

  /** All times lie in one window shorter than half the range, earlier times come first, and events of equal time
      stand in the order they were inserted. */
  ghost predicate Ordered(list: seq<Entry>, start: Time) {
    && (forall i | 0 <= i < |list| :: InWindow(list[i].time, start))
    && forall i, j | 0 <= i < j < |list| ::
         var a, b := Offset(list[i].time, start), Offset(list[j].time, start);
         a < b || (a == b && list[i].arrival < list[j].arrival)
  }

  lemma AheadInWindow(a: Time, b: Time, start: Time)
    requires InWindow(a, start) && InWindow(b, start)
    ensures Ahead(a, b) == Offset(a, start) - Offset(b, start)
  {
  }

  /** The insertion point keeps the order; the newest event goes behind all events of its time. */
  lemma InsertKeepsOrder(list: seq<Entry>, e: Entry, start: Time)
    requires Ordered(list, start) && InWindow(e.time, start)
    requires forall i | 0 <= i < |list| :: list[i].arrival < e.arrival
    ensures Ordered(Inserted(list, InsertAt(list, e.time), e), start)
  {
    hide Offset, Ahead, InsertAt, Inserted;
    var k := InsertAt(list, e.time);
    forall i | 0 <= i < |list|
      ensures i < k ==> Offset(list[i].time, start) <= Offset(e.time, start)
      ensures i >= k ==> Offset(e.time, start) < Offset(list[i].time, start)
    {
      AheadInWindow(e.time, list[i].time, start);
      if k < |list| {
        AheadInWindow(e.time, list[k].time, start);
      }
    }
    SplicedIsOrdered(list, k, e, start);
  }

  lemma SplicedIsOrdered(list: seq<Entry>, k: nat, e: Entry, start: Time)
    requires Ordered(list, start) && InWindow(e.time, start) && k <= |list|
    requires forall i | 0 <= i < |list| :: list[i].arrival < e.arrival
    requires forall i | 0 <= i < k :: Offset(list[i].time, start) <= Offset(e.time, start)
    requires forall i | k <= i < |list| :: Offset(e.time, start) < Offset(list[i].time, start)
    ensures Ordered(Inserted(list, k, e), start)
  {
    hide Offset, InWindow, Inserted;
    var list' := Inserted(list, k, e);
    assert forall i | 0 <= i < |list'| :: list'[i] == if i < k then list[i] else if i == k then e else list[i - 1];
  }

  /** Removing one event, or the front ones, keeps the order of the others. */
  lemma RemoveKeepsOrder(list: seq<Entry>, k: nat, start: Time)
    requires Ordered(list, start) && k < |list|
    ensures Ordered(Cut(list, k), start) && Ordered(list[k..], start)
  {
    var list' := Cut(list, k);
    assert forall i | 0 <= i < |list'| :: list'[i] == list[if i < k then i else i + 1];
  }

  /** When the present lies in the window of the pending events, the due events are exactly the front ones. */
  lemma DueEventsAreInFront(list: seq<Entry>, start: Time, now: Time)
    requires Ordered(list, start) && InWindow(now, start)
    ensures forall i | 0 <= i < |list| :: Due(list[i].time, now) <==> i < DuePrefix(list, now)
  {
    hide Offset, Ahead, DuePrefix;
    var n := DuePrefix(list, now);
    forall i | 0 <= i < |list|
      ensures Due(list[i].time, now) <==> i < n
    {
      AheadInWindow(list[i].time, now, start);
      if n < |list| {
        AheadInWindow(list[n].time, now, start);
      }
    }
  }

  /** When the present lies outside the window, what is due is the tail from some offset on. */
  lemma DueOutsideWindow(t: Time, start: Time, now: Time)
    requires InWindow(t, start) && !InWindow(now, start)
    ensures Due(t, now) <==> Offset(t, start) + HALF_RANGE >= Offset(now, start)
  {
  }

  /** The exact condition: dispatching the front events serves all due ones if and only if the present lies in the
      window, or the first event is due, or the last one is not. Otherwise events half a range behind are due but
      stand behind one that is not. */
  lemma DueEventsServedExactlyWhen(list: seq<Entry>, start: Time, now: Time)
    requires Ordered(list, start) && list != []
    ensures (forall i | 0 <= i < |list| :: Due(list[i].time, now) ==> i < DuePrefix(list, now))
            <==> InWindow(now, start) || Due(list[0].time, now) || !Due(list[|list| - 1].time, now)
  {
    hide Offset, Ahead, Due, DuePrefix;
    var n, last := DuePrefix(list, now), |list| - 1;
    if InWindow(now, start) {
      DueEventsAreInFront(list, start, now);
    } else {
      forall i | 0 <= i < |list|
        ensures Due(list[i].time, now) <==> Offset(list[i].time, start) + HALF_RANGE >= Offset(now, start)
        ensures Offset(list[0].time, start) <= Offset(list[i].time, start) <= Offset(list[last].time, start)
      {
        DueOutsideWindow(list[i].time, start, now);
      }
    }
  }

  /** Two events half the range apart, and the present 6 beyond the later one: the first no longer looks due, and the
      second, which does, waits behind it. */
  lemma DueEventMayWait(a: Event, b: Event)
    ensures var list, now := [Entry(a, 0, 0, 0), Entry(b, 0x7fff_ffff, 0, 1)], 0x8000_0005;
            && Ordered(list, 0) && DuePrefix(list, now) == 0
            && !Due(list[0].time, now) && Due(list[1].time, now)
  {
  }

  /* ----- Handlers that use the ticker ----- */

  datatype Ticker = Ticker(list: seq<Entry>, inserted: nat, clockUs: nat, hasHandler: bool)

  /** What a handler, or anyone else, may do to the ticker. */
  datatype Act =
    | Insert(event: Event, time: Time, id: nat)
    | Remove(event: Event)
    | SetHandler(present: bool)
    | Pass(us: nat)
    | Reset

  function Now(clockUs: nat): Time {
    clockUs % TIME_RANGE
  }

  ghost function AfterAct(t: Ticker, a: Act): Ticker {
    match a
    case Insert(event, time, id) =>
      t.(list := Inserted(t.list, InsertAt(t.list, time), Entry(event, time, id, t.inserted)),
         inserted := t.inserted + 1)
    case Remove(event) =>
      var k := IndexOf(t.list, event);
      if k < |t.list| then t.(list := Cut(t.list, k)) else t
    case SetHandler(present) => t.(hasHandler := present)
    case Pass(us) => t.(clockUs := t.clockUs + us)
    case Reset => t.(list := [], hasHandler := false)
  }

  ghost function AfterActs(t: Ticker, acts: seq<Act>): Ticker {
    if acts == [] then t else AfterAct(AfterActs(t, acts[..|acts| - 1]), acts[|acts| - 1])
  }

  /** What the first call of a script does; calls beyond the script do nothing. */
  function FirstCall(script: seq<seq<Act>>): seq<Act> {
    if script == [] then [] else script[0]
  }

  function LaterCalls(script: seq<seq<Act>>): seq<seq<Act>> {
    if script == [] then [] else script[1..]
  }

  ghost predicate HeadIsDue(t: Ticker) {
    t.hasHandler && t.list != [] && Due(t.list[0].time, Now(t.clockUs))
  }

  /** The ticker after its head was taken off and the handler did what the script says for this call. */
  ghost function AfterHead(t: Ticker, script: seq<seq<Act>>): (t': Ticker)
    requires t.list != []
    ensures script == [] ==> |t'.list| < |t.list|
  {
    AfterActs(t.(list := t.list[1..]), FirstCall(script))
  }

  /** Dispatching: while the head is due it is taken off and the handler called with its id. The script says what each
      call of the handler does, one after the other. */
  ghost function Served(t: Ticker, script: seq<seq<Act>>): (r: (Ticker, seq<Entry>))
    decreases |script|, |t.list|
  {
    if !HeadIsDue(t) then (t, [])
    else
      var (t', served) := Served(AfterHead(t, script), LaterCalls(script));
      (t', [t.list[0]] + served)
  }

  ghost predicate Queued(list: seq<Entry>, event: Event) {
    IndexOf(list, event) < |list|
  }

  /** No event is inserted while it is queued. */
  ghost predicate SoundActs(t: Ticker, acts: seq<Act>) {
    acts == [] ||
    var front, last := acts[..|acts| - 1], acts[|acts| - 1];
    SoundActs(t, front) && (last.Insert? ==> !Queued(AfterActs(t, front).list, last.event))
  }

  ghost predicate Sound(t: Ticker, script: seq<seq<Act>>)
    decreases |script|, |t.list|
  {
    HeadIsDue(t) ==>
      SoundActs(t.(list := t.list[1..]), FirstCall(script)) && Sound(AfterHead(t, script), LaterCalls(script))
  }

  /** Arrival numbers have been given out. */
  ghost predicate Numbered(t: Ticker) {
    forall i | 0 <= i < |t.list| :: t.list[i].arrival < t.inserted
  }

  predicate InsertsWithin(acts: seq<Act>, start: Time) {
    forall a | a in acts && a.Insert? :: InWindow(a.time, start)
  }

  lemma ActKeepsOrder(t: Ticker, a: Act, start: Time)
    requires Numbered(t) && Ordered(t.list, start) && (a.Insert? ==> InWindow(a.time, start))
    ensures Numbered(AfterAct(t, a)) && Ordered(AfterAct(t, a).list, start)
  {
    hide InsertAt, IndexOf, Ordered, InWindow;
    match a
    case Insert(event, time, id) => InsertKeepsOrder(t.list, Entry(event, time, id, t.inserted), start);
    case Remove(event) =>
      if IndexOf(t.list, event) < |t.list| { RemoveKeepsOrder(t.list, IndexOf(t.list, event), start); }
    case Reset => NothingOrdered(start);
    case _ =>
  }

  lemma ActKeepsEveryOrder(t: Ticker, a: Act)
    requires Numbered(t)
    ensures forall start | Ordered(t.list, start) && (a.Insert? ==> InWindow(a.time, start)) ::
              Ordered(AfterAct(t, a).list, start)
  {
    hide Ordered, InWindow, AfterAct, Numbered;
    forall start | Ordered(t.list, start) && (a.Insert? ==> InWindow(a.time, start))
      ensures Ordered(AfterAct(t, a).list, start)
    {
      ActKeepsOrder(t, a, start);
    }
  }

  lemma NothingOrdered(start: Time)
    ensures Ordered([], start)
  {
  }

  lemma {:induction false} ActsKeepOrder(t: Ticker, acts: seq<Act>, start: Time)
    requires Numbered(t) && Ordered(t.list, start) && InsertsWithin(acts, start)
    ensures Numbered(AfterActs(t, acts)) && Ordered(AfterActs(t, acts).list, start)
  {
    hide AfterAct, Ordered, InWindow, Numbered;
    if acts != [] {
      var front, last := acts[..|acts| - 1], acts[|acts| - 1];
      assert last in acts && forall a | a in front :: a in acts;
      ActsKeepOrder(t, front, start);
      ActKeepsOrder(AfterActs(t, front), last, start);
    }
  }

  /** Dispatching keeps the list sorted whatever the handlers insert in the window and remove. It stops at a head that
      is not due, so with the present in the window nothing due is left, be it old or newly inserted. */
  lemma {:induction false} NothingDueIsLeft(t: Ticker, script: seq<seq<Act>>, start: Time)
    requires Numbered(t) && Ordered(t.list, start) && forall acts | acts in script :: InsertsWithin(acts, start)
    ensures var (t', served) := Served(t, script);
            && Numbered(t') && Ordered(t'.list, start) && !HeadIsDue(t')
            && (t'.hasHandler && InWindow(Now(t'.clockUs), start) ==>
                  forall i | 0 <= i < |t'.list| :: !Due(t'.list[i].time, Now(t'.clockUs)))
    decreases |script|, |t.list|
  {
    hide Ordered, InWindow, Due, InsertsWithin, DuePrefix, AfterActs, Numbered;
    if HeadIsDue(t) {
      RemoveKeepsOrder(t.list, 0, start);
      PoppedIsNumbered(t);
      EmptyInsertsWithin(start);
      assert Cut(t.list, 0) == t.list[1..];
      ActsKeepOrder(t.(list := t.list[1..]), FirstCall(script), start);
      NothingDueIsLeft(AfterHead(t, script), LaterCalls(script), start);
    } else if t.hasHandler && InWindow(Now(t.clockUs), start) {
      DueEventsAreInFront(t.list, start, Now(t.clockUs));
    }
  }

  lemma NothingDueIsLeftInAnyWindow(t: Ticker, script: seq<seq<Act>>)
    requires Numbered(t)
    ensures var t' := Served(t, script).0;
            forall start | Ordered(t.list, start) && (forall acts | acts in script :: InsertsWithin(acts, start)) ::
              && Ordered(t'.list, start)
              && (t'.hasHandler && InWindow(Now(t'.clockUs), start) ==>
                    forall i | 0 <= i < |t'.list| :: !Due(t'.list[i].time, Now(t'.clockUs)))
  {
    hide Ordered, InWindow, Due, InsertsWithin, Served, Numbered;
    forall start | Ordered(t.list, start) && (forall acts | acts in script :: InsertsWithin(acts, start))
      ensures var t' := Served(t, script).0;
              && Ordered(t'.list, start)
              && (t'.hasHandler && InWindow(Now(t'.clockUs), start) ==>
                    forall i | 0 <= i < |t'.list| :: !Due(t'.list[i].time, Now(t'.clockUs)))
    {
      NothingDueIsLeft(t, script, start);
    }
  }

  lemma PoppedIsNumbered(t: Ticker)
    requires Numbered(t) && t.list != []
    ensures Numbered(t.(list := t.list[1..]))
  {
  }

  lemma EmptyInsertsWithin(start: Time)
    ensures InsertsWithin([], start)
  {
  }

  ghost predicate Pends(list: seq<Entry>, arrival: nat) {
    exists i | 0 <= i < |list| :: list[i].arrival == arrival
  }

  lemma {:induction false} ActsBringNothingBack(t: Ticker, acts: seq<Act>, arrival: nat)
    requires arrival < t.inserted && !Pends(t.list, arrival)
    ensures arrival < AfterActs(t, acts).inserted && !Pends(AfterActs(t, acts).list, arrival)
  {
    hide AfterAct, Pends;
    if acts != [] {
      ActsBringNothingBack(t, acts[..|acts| - 1], arrival);
      ActBringsNothingBack(AfterActs(t, acts[..|acts| - 1]), acts[|acts| - 1], arrival);
    }
  }

  lemma ActBringsNothingBack(t: Ticker, a: Act, arrival: nat)
    requires arrival < t.inserted && !Pends(t.list, arrival)
    ensures arrival < AfterAct(t, a).inserted && !Pends(AfterAct(t, a).list, arrival)
  {
    hide InsertAt, IndexOf, Inserted, Cut;
  }

  /** An insertion that is no longer pending is never served again, also when its event is inserted anew. */
  lemma {:induction false} NeverComesBack(t: Ticker, script: seq<seq<Act>>, arrival: nat)
    requires arrival < t.inserted && !Pends(t.list, arrival)
    ensures !Pends(Served(t, script).0.list, arrival) && !Pends(Served(t, script).1, arrival)
    decreases |script|, |t.list|
  {
    hide AfterActs, Due;
    if HeadIsDue(t) {
      ActsBringNothingBack(t.(list := t.list[1..]), FirstCall(script), arrival);
      NeverComesBack(AfterHead(t, script), LaterCalls(script), arrival);
    }
  }

  ghost predicate DistinctArrivals(list: seq<Entry>) {
    forall i, j | 0 <= i < j < |list| :: list[i].arrival != list[j].arrival
  }

  lemma {:induction false} ActsKeepArrivals(t: Ticker, acts: seq<Act>)
    requires Numbered(t) && DistinctArrivals(t.list)
    ensures Numbered(AfterActs(t, acts)) && DistinctArrivals(AfterActs(t, acts).list)
  {
    hide AfterAct, Numbered, DistinctArrivals;
    if acts != [] {
      ActsKeepArrivals(t, acts[..|acts| - 1]);
      ActKeepsArrivals(AfterActs(t, acts[..|acts| - 1]), acts[|acts| - 1]);
    }
  }

  lemma ActKeepsArrivals(t: Ticker, a: Act)
    requires Numbered(t) && DistinctArrivals(t.list)
    ensures Numbered(AfterAct(t, a)) && DistinctArrivals(AfterAct(t, a).list)
  {
    hide InsertAt, IndexOf, Inserted, Cut;
  }

  /** Every insertion is served at most once, and not while it is still pending. */
  lemma {:induction false} EachIsServedOnce(t: Ticker, script: seq<seq<Act>>)
    requires Numbered(t) && DistinctArrivals(t.list)
    ensures var (t', served) := Served(t, script);
            && DistinctArrivals(served) && DistinctArrivals(t'.list)
            && forall i | 0 <= i < |served| :: !Pends(t'.list, served[i].arrival)
    decreases |script|, |t.list|
  {
    hide AfterActs, Due;
    if HeadIsDue(t) {
      var popped := t.(list := t.list[1..]);
      ActsKeepArrivals(popped, FirstCall(script));
      ActsBringNothingBack(popped, FirstCall(script), t.list[0].arrival);
      EachIsServedOnce(AfterHead(t, script), LaterCalls(script));
      NeverComesBack(AfterHead(t, script), LaterCalls(script), t.list[0].arrival);
    }
  }

  predicate Spares(acts: seq<Act>, event: Event) {
    forall a | a in acts :: a != Remove(event) && a != Reset
  }

  lemma {:induction false} ActsKeepPending(t: Ticker, acts: seq<Act>, e: Entry)
    requires e in t.list && Spares(acts, e.event)
    ensures e in AfterActs(t, acts).list
  {
    hide InsertAt, IndexOf;
    if acts != [] {
      var front, last := acts[..|acts| - 1], acts[|acts| - 1];
      assert last in acts && forall a | a in front :: a in acts;
      ActsKeepPending(t, front, e);
      ActKeepsPending(AfterActs(t, front), last, e);
    }
  }

  lemma ActKeepsPending(t: Ticker, a: Act, e: Entry)
    requires e in t.list && a != Remove(e.event) && a != Reset
    ensures e in AfterAct(t, a).list
  {
    hide InsertAt, IndexOf, Inserted, Cut;
    match a
    case Insert(event, time, id) =>
      StaysWhenInserted(t.list, InsertAt(t.list, time), Entry(event, time, id, t.inserted), e);
    case Remove(event) =>
      var k := IndexOf(t.list, event);
      if k < |t.list| { StaysWhenCut(t.list, k, e); }
    case _ =>
  }

  lemma StaysWhenInserted(list: seq<Entry>, k: nat, more: Entry, e: Entry)
    requires k <= |list| && e in list
    ensures e in Inserted(list, k, more)
  {
    var i :| 0 <= i < |list| && list[i] == e;
    assert Inserted(list, k, more)[if i < k then i else i + 1] == e;
  }

  lemma StaysWhenCut(list: seq<Entry>, k: nat, e: Entry)
    requires k < |list| && e in list && list[k] != e
    ensures e in Cut(list, k)
  {
    var i :| 0 <= i < |list| && list[i] == e;
    assert Cut(list, k)[if i < k then i else i - 1] == e;
  }

  /** A pending event that no handler removes is served or stays pending. */
  lemma {:induction false} NoneIsLost(t: Ticker, script: seq<seq<Act>>, e: Entry)
    requires e in t.list && forall acts | acts in script :: Spares(acts, e.event)
    ensures e in Served(t, script).0.list || e in Served(t, script).1
    decreases |script|, |t.list|
  {
    hide AfterActs, Due, Spares;
    if HeadIsDue(t) && e != t.list[0] {
      NothingSpares(e.event);
      ActsKeepPending(t.(list := t.list[1..]), FirstCall(script), e);
      NoneIsLost(AfterHead(t, script), LaterCalls(script), e);
    }
  }

  lemma NothingSpares(event: Event)
    ensures Spares([], event)
  {
  }

  /** With handlers that leave the ticker alone, dispatching serves the front that is due, in order. */
  lemma {:induction false} PassiveHandlersServeTheFront(t: Ticker)
    ensures var n := if t.hasHandler then DuePrefix(t.list, Now(t.clockUs)) else 0;
            Served(t, []) == (t.(list := t.list[n..]), t.list[..n])
    decreases |t.list|
  {
    hide Due;
    if HeadIsDue(t) {
      var popped := t.(list := t.list[1..]);
      assert AfterHead(t, []) == popped;
      PassiveHandlersServeTheFront(popped);
      var n := DuePrefix(t.list, Now(t.clockUs));
      assert t.list[1..][n - 1..] == t.list[n..] && [t.list[0]] + t.list[1..][..n - 1] == t.list[..n];
    }
  }

  /** Calls that each insert the event again, a period after the time it was due. */
  function Rearming(event: Event, id: nat, time: Time, period: nat, calls: nat): (script: seq<seq<Act>>)
    ensures |script| == calls
    decreases calls
  {
    if calls == 0 then []
    else
      var next := Rem(time + period, TIME_RANGE);
      [[Insert(event, next, id)]] + Rearming(event, id, next, period, calls - 1)
  }

  lemma RearmedHead(t: Ticker, e: Entry, period: nat, calls: nat)
    requires t.list == [e] && calls > 0
    ensures var script, next := Rearming(e.event, e.id, e.time, period, calls), Rem(e.time + period, TIME_RANGE);
            && AfterHead(t, script)
               == t.(list := [Entry(e.event, next, e.id, t.inserted)], inserted := t.inserted + 1)
            && FirstCall(script) == [Insert(e.event, next, e.id)]
            && LaterCalls(script) == Rearming(e.event, e.id, next, period, calls - 1)
  {
    hide Rem;
    var next := Rem(e.time + period, TIME_RANGE);
    var call := [Insert(e.event, next, e.id)];
    assert call[..0] == [] && AfterActs(t.(list := []), []) == t.(list := []);
    assert t.list[1..] == [];
  }

  function TimeAfter(time: Time, period: nat, n: nat): Time {
    Rem(time + n * period, TIME_RANGE)
  }

  /** The event was served n times, a period apart. */
  predicate ServedEvery(served: seq<Entry>, e: Entry, period: nat, n: nat) {
    && |served| == n
    && forall i | 0 <= i < n :: served[i].event == e.event && served[i].id == e.id
                                && served[i].time == TimeAfter(e.time, period, i)
  }

  lemma ServedOnceMore(e: Entry, next: Entry, served: seq<Entry>, period: nat, n: nat)
    requires next.event == e.event && next.id == e.id && next.time == TimeAfter(e.time, period, 1)
    requires ServedEvery(served, next, period, n)
    ensures ServedEvery([e] + served, e, period, n + 1)
    ensures TimeAfter(next.time, period, n) == TimeAfter(e.time, period, n + 1)
  {
    hide TimeAfter;
    FirstTimes(e.time, period);
    LaterTime(e.time, period, n);
    forall i | 0 < i <= n ensures TimeAfter(next.time, period, i - 1) == TimeAfter(e.time, period, i) {
      LaterTime(e.time, period, i - 1);
    }
  }

  lemma OneInsertIsSound(t: Ticker, event: Event, time: Time, id: nat)
    requires t.list == []
    ensures SoundActs(t, [Insert(event, time, id)])
  {
    assert [Insert(event, time, id)][..0] == [];
  }

  lemma NextIsLessLate(now: Time, time: Time, period: nat)
    requires 0 < period && 0 <= Ahead(now, time) && Ahead(now, time) + period < HALF_RANGE
    ensures Ahead(now, Rem(time + period, TIME_RANGE)) == Ahead(now, time) - period
    ensures Due(time, now)
    ensures Due(Rem(time + period, TIME_RANGE), now) <==> Ahead(now, time) >= period
  {
  }

  /** A periodic event that is inserted again whenever it fires catches up: one dispatch serves it once for each period
      that has begun since its time, and leaves it pending at the next one. */
  lemma {:induction false} RearmedEventCatchesUp(t: Ticker, e: Entry, late: nat, period: nat, calls: nat)
    requires t.list == [e] && t.hasHandler && late == Ahead(Now(t.clockUs), e.time)
    requires 0 < period && late + period < HALF_RANGE && Quot(late, period) < calls
    ensures var script, n := Rearming(e.event, e.id, e.time, period, calls), Quot(late, period) + 1;
            var (t', served) := Served(t, script);
            && Sound(t, script) && ServedEvery(served, e, period, n) && !HeadIsDue(t')
            && |t'.list| == 1 && t'.list[0].event == e.event && t'.list[0].id == e.id
            && t'.list[0].time == TimeAfter(e.time, period, n)
    decreases calls
  {
    hide Ahead, Due, Rearming, Quot, Rem, AfterHead, Now, SoundActs, TimeAfter, ServedEvery;
    var next := Rem(e.time + period, TIME_RANGE);
    var script := Rearming(e.event, e.id, e.time, period, calls);
    OneInsertIsSound(t.(list := t.list[1..]), e.event, next, e.id);
    RearmedHead(t, e, period, calls);
    NextIsLessLate(Now(t.clockUs), e.time, period);
    OnePeriodLess(late, period);
    FirstTimes(e.time, period);
    var t1 := AfterHead(t, script);
    if late >= period {
      RearmedEventCatchesUp(t1, t1.list[0], late - period, period, calls - 1);
      ServedOnceMore(e, t1.list[0], Served(t1, LaterCalls(script)).1, period, Quot(late, period));
    } else {
      ServedFirst(e, period);
    }
  }

  lemma ServedFirst(e: Entry, period: nat)
    ensures ServedEvery([e], e, period, 1) && [e] + [] == [e]
  {
    hide TimeAfter;
    FirstTimes(e.time, period);
  }

  lemma OnePeriodLess(late: nat, period: nat)
    requires period > 0
    ensures late < period ==> Quot(late, period) == 0
    ensures late >= period ==> Quot(late, period) == Quot(late - period, period) + 1
  {
    hide Quot, Rem;
    if late < period {
      Smaller(late, period);
    } else {
      var q := Quot(late - period, period);
      Quotient(late - period, period);
      Distributes(q, 1, period);
      DivisionIsUnique(late, period, q + 1, Rem(late - period, period));
    }
  }

  lemma FirstTimes(time: Time, period: nat)
    ensures TimeAfter(time, period, 0) == time
    ensures TimeAfter(time, period, 1) == Rem(time + period, TIME_RANGE)
  {
    Smaller(time, TIME_RANGE);
  }

  lemma LaterTime(time: Time, period: nat, i: nat)
    ensures TimeAfter(TimeAfter(time, period, 1), period, i) == TimeAfter(time, period, i + 1)
  {
    hide Rem;
    WrappedSum(time, period, i * period, TIME_RANGE);
    Distributes(i, 1, period);
  }

  /* ----- In microseconds of the clock ----- */

  /** An event to be called at a microsecond of the 64-bit clock; the ticker is given its low 32 bits. */
  datatype Alarm = Alarm(event: Event, atUs: nat, id: nat)

  ghost function Requests(alarms: seq<Alarm>): (acts: seq<Act>)
    ensures |acts| == |alarms|
    ensures forall i | 0 <= i < |alarms| ::
              acts[i] == Insert(alarms[i].event, alarms[i].atUs % 0x1_0000_0000, alarms[i].id)
  {
    seq(|alarms|, i requires 0 <= i < |alarms| =>
      Insert(alarms[i].event, alarms[i].atUs % 0x1_0000_0000, alarms[i].id))
  }

  /** The entries they are queued as, with arrival numbers from `first` on. */
  ghost function Asked(alarms: seq<Alarm>, first: nat): (entries: seq<Entry>)
    ensures |entries| == |alarms|
    ensures forall i | 0 <= i < |alarms| ::
              entries[i] == Entry(alarms[i].event, alarms[i].atUs % 0x1_0000_0000, alarms[i].id, first + i)
  {
    seq(|alarms|, i requires 0 <= i < |alarms| =>
      Entry(alarms[i].event, alarms[i].atUs % 0x1_0000_0000, alarms[i].id, first + i))
  }

  /** Within half the range from some microsecond on, offsets in the window are differences of the 64-bit clock. */
  lemma OffsetOfClock(us: nat, base: nat)
    requires base <= us < base + 0x8000_0000
    ensures Offset(Now(us), Now(base)) == us - base && InWindow(Now(us), Now(base))
  {
  }

  /** Two lists of the same entries. */
  ghost predicate Same(list: seq<Entry>, entries: seq<Entry>) {
    (forall e | e in list :: e in entries) && forall e | e in entries :: e in list
  }

  lemma InsertedMembers(list: seq<Entry>, k: nat, more: Entry)
    requires k <= |list|
    ensures forall e :: e in Inserted(list, k, more) <==> e in list || e == more
  {
    forall e ensures e in Inserted(list, k, more) <==> e in list || e == more {
      if e in list { StaysWhenInserted(list, k, more, e); }
      assert Inserted(list, k, more)[k] == more;
    }
  }

  lemma {:induction false} RequestsAreQueued(t: Ticker, alarms: seq<Alarm>, n: nat)
    requires t.list == [] && n <= |alarms|
    ensures var t' := AfterActs(t, Requests(alarms)[..n]);
            && t' == t.(list := t'.list, inserted := t.inserted + n)
            && Same(t'.list, Asked(alarms, t.inserted)[..n])
  {
    hide InsertAt, Inserted, AfterAct, Same;
    var acts, asked := Requests(alarms)[..n], Asked(alarms, t.inserted);
    if n == 0 {
      SameNothing(asked[..0]);
    } else {
      assert acts[..n - 1] == Requests(alarms)[..n - 1];
      RequestsAreQueued(t, alarms, n - 1);
      var t1 := AfterActs(t, acts[..n - 1]);
      OneMoreRequest(t1, asked[n - 1]);
      assert asked[..n] == asked[..n - 1] + [asked[n - 1]];
      SameAndMore(t1.list, asked[..n - 1], AfterActs(t, acts).list, asked[n - 1]);
    }
  }

  lemma SameNothing(entries: seq<Entry>)
    requires entries == []
    ensures Same([], entries)
  {
  }

  lemma SameAndMore(list: seq<Entry>, entries: seq<Entry>, list': seq<Entry>, e: Entry)
    requires Same(list, entries) && forall x :: x in list' <==> x in list || x == e
    ensures Same(list', entries + [e])
  {
  }

  lemma OneMoreRequest(t: Ticker, e: Entry)
    requires e.arrival == t.inserted
    ensures var t' := AfterAct(t, Insert(e.event, e.time, e.id));
            && t' == t.(list := t'.list, inserted := t.inserted + 1)
            && forall x :: x in t'.list <==> x in t.list || x == e
  {
    hide InsertAt, Inserted;
    InsertedMembers(t.list, InsertAt(t.list, e.time), e);
  }

  /** The n-th alarm's time is due exactly when its microsecond has come. */
  lemma DueByTheClock(alarm: Alarm, clockUs: nat, base: nat)
    requires base <= alarm.atUs < base + 0x8000_0000 && base <= clockUs < base + 0x8000_0000
    ensures Due(alarm.atUs % 0x1_0000_0000, Now(clockUs)) <==> alarm.atUs <= clockUs
  {
    hide Offset, InWindow, Ahead;
    OffsetOfClock(alarm.atUs, base);
    OffsetOfClock(clockUs, base);
    AheadInWindow(Now(alarm.atUs), Now(clockUs), Now(base));
  }

  lemma AlarmsInWindow(alarms: seq<Alarm>, base: nat)
    requires forall alarm | alarm in alarms :: base <= alarm.atUs < base + 0x8000_0000
    ensures InsertsWithin(Requests(alarms), Now(base))
  {
    hide InWindow;
    forall a | a in Requests(alarms) ensures InWindow(a.time, Now(base)) {
      var i :| 0 <= i < |alarms| && Requests(alarms)[i] == a;
      assert alarms[i] in alarms;
      OffsetOfClock(alarms[i].atUs, base);
    }
  }

  /** What is served are the alarms whose microsecond has come; the others are left. */
  ghost predicate SplitByTheClock(served: seq<Entry>, left: seq<Entry>, alarms: seq<Alarm>, first: nat, clockUs: nat) {
    var asked := Asked(alarms, first);
    && (forall i | 0 <= i < |alarms| ::
          && (asked[i] in served <==> alarms[i].atUs <= clockUs)
          && (asked[i] in left <==> alarms[i].atUs > clockUs))
    && (forall e | e in served :: e in asked)
    && forall e | e in left :: e in asked
  }

  /** Entry k stands for the alarm its arrival number says. */
  ghost predicate StandsForAlarm(list: seq<Entry>, k: nat, alarms: seq<Alarm>, first: nat)
    requires k < |list|
  {
    var m := list[k].arrival - first;
    0 <= m < |alarms| && list[k] == Asked(alarms, first)[m]
  }

  /** Earliest first, and in the order asked for on ties. */
  ghost predicate InOrderOfTime(list: seq<Entry>, alarms: seq<Alarm>, first: nat) {
    && (forall k | 0 <= k < |list| :: StandsForAlarm(list, k, alarms, first))
    && forall i, j | 0 <= i < j < |list| ::
         && StandsForAlarm(list, i, alarms, first) && StandsForAlarm(list, j, alarms, first)
         && var m, n := list[i].arrival - first, list[j].arrival - first;
            alarms[m].atUs < alarms[n].atUs || (alarms[m].atUs == alarms[n].atUs && m < n)
  }

  /** On the microsecond clock: events asked for within half the range of each other and of the present are called by
      one dispatch exactly when their microsecond has come, earliest first and in the order asked for on ties; the
      others stay queued. */
  lemma DispatchCallsWhatIsPast(t: Ticker, alarms: seq<Alarm>, base: nat)
    requires t.list == [] && t.hasHandler && base <= t.clockUs < base + 0x8000_0000
    requires forall alarm | alarm in alarms :: base <= alarm.atUs < base + 0x8000_0000
    ensures var (t', served) := Served(AfterActs(t, Requests(alarms)), []);
            && SplitByTheClock(served, t'.list, alarms, t.inserted, t.clockUs)
            && InOrderOfTime(served, alarms, t.inserted)
  {
    hide AfterActs, Served, Ordered, DuePrefix, Now, Requests, SplitByTheClock, InOrderOfTime, StandsForAlarm;
    var t1 := AfterActs(t, Requests(alarms));
    var n := DuePrefix(t1.list, Now(t.clockUs));
    QueueOfAlarms(t, alarms, base);
    DueByTheirAlarms(t1.list, alarms, t.inserted, t.clockUs, base);
    PassiveHandlersServeTheFront(t1);
    AlarmsSplit(t1.list, alarms, t.inserted, t.clockUs, n);
    EarlierFirst(t1.list, alarms, t.inserted, base, n);
  }

  /** The queue of the alarms: their entries, sorted. */
  lemma QueueOfAlarms(t: Ticker, alarms: seq<Alarm>, base: nat)
    requires t.list == [] && forall alarm | alarm in alarms :: base <= alarm.atUs < base + 0x8000_0000
    ensures var t1 := AfterActs(t, Requests(alarms));
            && t1 == t.(list := t1.list, inserted := t1.inserted) && Ordered(t1.list, Now(base))
            && Same(t1.list, Asked(alarms, t.inserted))
  {
    hide AfterActs, Ordered, Now, Numbered, InsertsWithin;
    assert Requests(alarms)[..|alarms|] == Requests(alarms);
    assert Asked(alarms, t.inserted)[..|alarms|] == Asked(alarms, t.inserted);
    RequestsAreQueued(t, alarms, |alarms|);
    AlarmsInWindow(alarms, base);
    NothingOrdered(Now(base));
    NothingNumbered(t);
    ActsKeepOrder(t, Requests(alarms), Now(base));
  }

  lemma NothingNumbered(t: Ticker)
    requires t.list == []
    ensures Numbered(t)
  {
  }

  lemma Standing(list: seq<Entry>, alarms: seq<Alarm>, first: nat, k: nat)
    requires k < |list| && Same(list, Asked(alarms, first))
    ensures StandsForAlarm(list, k, alarms, first)
  {
    assert list[k] in list;
    var m :| 0 <= m < |alarms| && Asked(alarms, first)[m] == list[k];
  }

  /** The due ones are exactly the front whose microseconds have come. */
  lemma DueByTheirAlarms(list: seq<Entry>, alarms: seq<Alarm>, first: nat, clockUs: nat, base: nat)
    requires Ordered(list, Now(base)) && Same(list, Asked(alarms, first))
    requires base <= clockUs < base + 0x8000_0000
    requires forall alarm | alarm in alarms :: base <= alarm.atUs < base + 0x8000_0000
    ensures forall k | 0 <= k < |list| ::
              && StandsForAlarm(list, k, alarms, first)
              && (k < DuePrefix(list, Now(clockUs)) <==> alarms[list[k].arrival - first].atUs <= clockUs)
  {
    hide Ordered, InWindow, Due, DuePrefix, Now, Same;
    OffsetOfClock(clockUs, base);
    DueEventsAreInFront(list, Now(base), Now(clockUs));
    forall k | 0 <= k < |list|
      ensures StandsForAlarm(list, k, alarms, first)
      ensures k < DuePrefix(list, Now(clockUs)) <==> alarms[list[k].arrival - first].atUs <= clockUs
    {
      Standing(list, alarms, first, k);
      var alarm := alarms[list[k].arrival - first];
      assert alarm in alarms;
      DueByTheClock(alarm, clockUs, base);
    }
  }

  lemma AlarmsSplit(list: seq<Entry>, alarms: seq<Alarm>, first: nat, clockUs: nat, n: nat)
    requires n <= |list| && Same(list, Asked(alarms, first))
    requires forall k | 0 <= k < |list| ::
               && StandsForAlarm(list, k, alarms, first)
               && (k < n <==> alarms[list[k].arrival - first].atUs <= clockUs)
    ensures SplitByTheClock(list[..n], list[n..], alarms, first, clockUs)
  {
    var asked, served, left := Asked(alarms, first), list[..n], list[n..];
    forall i | 0 <= i < |alarms|
      ensures asked[i] in served <==> alarms[i].atUs <= clockUs
      ensures asked[i] in left <==> alarms[i].atUs > clockUs
    {
      AlarmIsOnOneSide(list, alarms, first, clockUs, n, i);
    }
    forall e | e in served ensures e in asked { assert e in list; }
    forall e | e in left ensures e in asked { assert e in list; }
  }

  lemma AlarmIsOnOneSide(list: seq<Entry>, alarms: seq<Alarm>, first: nat, clockUs: nat, n: nat, i: nat)
    requires n <= |list| && Same(list, Asked(alarms, first)) && i < |alarms|
    requires forall k | 0 <= k < |list| ::
               && StandsForAlarm(list, k, alarms, first)
               && (k < n <==> alarms[list[k].arrival - first].atUs <= clockUs)
    ensures Asked(alarms, first)[i] in list[..n] <==> alarms[i].atUs <= clockUs
    ensures Asked(alarms, first)[i] in list[n..] <==> alarms[i].atUs > clockUs
  {
    var e := Asked(alarms, first)[i];
    assert e in list;
    var k :| 0 <= k < |list| && list[k] == e;
    if k < n { assert list[..n][k] == e; } else { assert list[n..][k - n] == e; }
    assert forall m | 0 <= m < |list| && list[m] == e :: m < n <==> alarms[i].atUs <= clockUs;
  }

  lemma EarlierFirst(list: seq<Entry>, alarms: seq<Alarm>, first: nat, base: nat, n: nat)
    requires Ordered(list, Now(base)) && forall alarm | alarm in alarms :: base <= alarm.atUs < base + 0x8000_0000
    requires n <= |list| && Same(list, Asked(alarms, first))
    ensures InOrderOfTime(list[..n], alarms, first)
  {
    hide Offset, InWindow, Asked, Same;
    forall k | 0 <= k < n ensures StandsForAlarm(list[..n], k, alarms, first) {
      Standing(list, alarms, first, k);
    }
    forall i, j | 0 <= i < j < n
      ensures var k, m := list[i].arrival - first, list[j].arrival - first;
              && 0 <= k < |alarms| && 0 <= m < |alarms|
              && (alarms[k].atUs < alarms[m].atUs || (alarms[k].atUs == alarms[m].atUs && k < m))
    {
      assert StandsForAlarm(list[..n], i, alarms, first) && StandsForAlarm(list[..n], j, alarms, first);
      var k, m := list[i].arrival - first, list[j].arrival - first;
      assert alarms[k] in alarms && alarms[m] in alarms;
      OffsetOfClock(alarms[k].atUs, base);
      OffsetOfClock(alarms[m].atUs, base);
    }
  }

  /** A periodic event asked for at a microsecond and inserted again whenever it is called: one dispatch at a later
      microsecond calls it once for every period that has begun since, and leaves it queued for the next. */
  lemma PeriodicAlarmCatchesUp(t: Ticker, e: Entry, atUs: nat, period: nat, calls: nat)
    requires t.list == [e] && t.hasHandler && e.time == atUs % 0x1_0000_0000 && atUs <= t.clockUs
    requires 0 < period && t.clockUs - atUs + period < 0x8000_0000 && (t.clockUs - atUs) / period < calls
    ensures var n := (t.clockUs - atUs) / period + 1;
            var (t', served) := Served(t, Rearming(e.event, e.id, e.time, period, calls));
            && |served| == n && |t'.list| == 1
            && (forall i | 0 <= i < n ::
                  && served[i].event == e.event && served[i].id == e.id
                  && served[i].time == (atUs + i * period) % 0x1_0000_0000)
            && t'.list[0].event == e.event && t'.list[0].id == e.id
            && t'.list[0].time == (atUs + n * period) % 0x1_0000_0000
  {
    hide Ahead, Now, Served, Rearming, TimeAfter, HeadIsDue, Sound;
    var late := t.clockUs - atUs;
    AheadOfClock(t.clockUs, atUs);
    RearmedEventCatchesUp(t, e, late, period, calls);
    var n := late / period + 1;
    forall i | 0 <= i <= n ensures TimeAfter(e.time, period, i) == (atUs + i * period) % 0x1_0000_0000 {
      WrappedSum(0, atUs, i * period, TIME_RANGE);
      TimeAfterIs(e.time, period, i);
      RemOfTime(atUs);
      RemOfTime(atUs + i * period);
    }
  }

  lemma AheadOfClock(clockUs: nat, atUs: nat)
    requires atUs <= clockUs < atUs + 0x8000_0000
    ensures Ahead(Now(clockUs), atUs % 0x1_0000_0000) == clockUs - atUs
  {
  }

  lemma TimeAfterIs(time: Time, period: nat, n: nat)
    ensures TimeAfter(time, period, n) == Rem(time + n * period, TIME_RANGE)
  {
  }

  lemma RemOfTime(us: nat)
    ensures Rem(us, TIME_RANGE) == us % 0x1_0000_0000
  {
  }

  /** What else can happen to the ticker: an event is taken out, time passes, the handler is replaced, everything is
      dropped with the handler while the clock goes on. */
  lemma OtherActs(t: Ticker, event: Event, us: nat, present: bool)
    requires forall i, j | 0 <= i < j < |t.list| :: t.list[i].event != t.list[j].event
    ensures var left := AfterAct(t, Remove(event)).list;
            && AfterAct(t, Remove(event)) == t.(list := left)
            && (forall e | e in t.list :: e in left <==> e.event != event) && forall e | e in left :: e in t.list
    ensures AfterAct(t, Pass(us)) == Ticker(t.list, t.inserted, t.clockUs + us, t.hasHandler)
    ensures AfterAct(t, SetHandler(present)) == Ticker(t.list, t.inserted, t.clockUs, present)
    ensures AfterAct(t, Reset) == Ticker([], t.inserted, t.clockUs, false)
  {
    hide InsertAt, IndexOf, Inserted, Cut;
    var k := IndexOf(t.list, event);
    var left := AfterAct(t, Remove(event)).list;
    if k < |t.list| {
      forall e | e in t.list ensures e in left <==> e.event != event {
        var i :| 0 <= i < |t.list| && t.list[i] == e;
        if i != k { StaysWhenCut(t.list, k, e); }
      }
    }
  }

  /* ----- The list ----- */

  ghost function EventsOf(list: seq<Entry>): (q: seq<Event>)
    ensures |q| == |list| && forall i | 0 <= i < |list| :: q[i] == list[i].event
  {
    seq(|list|, i requires 0 <= i < |list| => list[i].event)
  }

  function Successor(q: seq<Event>, i: nat): Event? {
    if i + 1 < |q| then q[i + 1] else null
  }

  ghost predicate Distinct(q: seq<Event>) {
    forall i, j | 0 <= i < j < |q| :: q[i] != q[j]
  }

  /** The next pointers from the head on visit the events of q in order and then end. */
  ghost predicate Chained(head: Event?, q: seq<Event>)
    reads q`next
  {
    && Distinct(q)
    && head == (if q == [] then null else q[0])
    && forall i {:trigger q[i].next} | 0 <= i < |q| :: q[i].next == Successor(q, i)
  }

  /** The next pointers from the head on visit the events of the stem and then go round the loop for ever. */
  ghost predicate Looped(head: Event?, stem: seq<Event>, loop: seq<Event>)
    reads stem`next, loop`next
  {
    var q := stem + loop;
    && loop != [] && Distinct(q) && head == q[0]
    && forall i {:trigger q[i].next} | 0 <= i < |q| ::
         q[i].next == if i + 1 < |q| then q[i + 1] else loop[0]
  }

  /** An event inserted behind the events of a front that are not later, and linked from behind the others. */
  ghost predicate LoopsAt(head: Event?, front: seq<Entry>, event: Event, time: Time)
    reads EventsOf(front)`next, event`next
  {
    var at := InsertAt(front, time);
    Looped(head, EventsOf(front)[..at], [event] + EventsOf(front)[at..])
  }

  /** The events carry the times and ids they were inserted with. */
  ghost predicate Carried(list: seq<Entry>)
    reads EventsOf(list)`timestamp, EventsOf(list)`id
  {
    forall i | 0 <= i < |list| :: list[i].event.timestamp == list[i].time && list[i].event.id == list[i].id
  }

  ghost function InsertedEvents(acts: seq<Act>): set<Event> {
    set a | a in acts && a.Insert? :: a.event
  }

  ghost function ScriptedEvents(script: seq<seq<Act>>): set<Event> {
    set acts, a | acts in script && a in acts && a.Insert? :: a.event
  }

  ghost function IdsOf(served: seq<Entry>): (ids: seq<nat>)
    ensures |ids| == |served| && forall i | 0 <= i < |served| :: ids[i] == served[i].id
  {
    seq(|served|, i requires 0 <= i < |served| => served[i].id)
  }

  class UsTickerState {
    /** The virtual clock in microseconds; the ticker sees its low 32 bits. */
    var clockUs: nat
    var hasHandler: bool
    var head: Event?
    /** The ids the handler has been called with. */
    var fired: seq<nat>
    /** The events from the head on, and how many have been inserted so far. */
    ghost var list: seq<Entry>
    ghost var inserted: nat

    ghost function State(): Ticker
      reads this
    {
      Ticker(list, inserted, clockUs, hasHandler)
    }

    ghost predicate Valid()
      reads this, EventsOf(list)
    {
      Chained(head, EventsOf(list)) && Carried(list) && Numbered(State())
    }

    constructor ()
      ensures Valid() && State() == Ticker([], 0, 0, false) && fired == []
    {
      clockUs, hasHandler, head, fired := 0, false, null, [];
      list, inserted := [], 0;
    }

    method ResetTicker()
      modifies this`head, this`hasHandler, this`list
      ensures Valid() && State() == AfterAct(old(State()), Reset)
    {
      hasHandler, head := false, null;
      list := [];
    }

    /** The cursor loop of the insertion: the last event that is not strictly later, from the head on. */
    method FindCursor(timestamp: Time) returns (cursor: Event, ghost k: nat)
      requires Chained(head, EventsOf(list)) && Carried(list)
      requires head != null && Ahead(timestamp, head.timestamp) >= 0
      ensures k < |list| && cursor == list[k].event && InsertAt(list, timestamp) == k + 1
    {
      hide Ahead, InsertAt;
      cursor, k := head, 0;
      ghost var q := EventsOf(list);
      while cursor.next != null && Ahead(timestamp, cursor.next.timestamp) >= 0
        invariant k < |q| && cursor == q[k]
        invariant forall i | 0 <= i <= k :: Ahead(timestamp, list[i].time) >= 0
        decreases |q| - k
      {
        assert cursor.next == Successor(q, k);
        cursor := cursor.next;
        k := k + 1;
      }
      assert cursor.next == Successor(q, k);
      InsertAtIs(list, timestamp, k + 1);
    }

    /** Splices an event in behind `previous`, or at the head. An event that is the last of the list itself closes a
        loop. */
    method LinkBehind(previous: Event?, event: Event, ghost q: seq<Event>, ghost k: nat)
      requires Chained(head, q) && k <= |q| && previous == if k == 0 then null else q[k - 1]
      requires event in q ==> event == q[|q| - 1] && k != |q| - 1
      modifies this`head, event`next, q`next
      ensures event !in q ==> Chained(head, Inserted(q, k, event))
      ensures event in q ==>
                var front := q[..|q| - 1];
                var at := if k < |front| then k else |front|;
                Looped(head, front[..at], [event] + front[at..])
    {
      hide Inserted;
      if previous == null {
        event.next := head;
        head := event;
      } else {
        assert previous.next == Successor(q, k - 1);
        event.next := previous.next;
        previous.next := event;
      }
      assert forall j | 0 <= j < |q| :: q[j] in q;
      if event !in q {
        InsertedDistinct(q, k, event);
        InsertedLinks(q, k, event);
      } else {
        ClosesLoop(head, q, k, event);
      }
    }

    /** Finds the place of an event, in front of the first strictly later one, and splices it in. */
    method Link(event: Event, timestamp: Time) returns (ghost k: nat)
      requires Chained(head, EventsOf(list)) && Carried(list)
      requires Queued(list, event) ==> list[|list| - 1].event == event && list[|list| - 1].time == timestamp
      modifies this`head, event`next, EventsOf(list)`next
      ensures k == InsertAt(list, timestamp)
      ensures !Queued(list, event) ==> Chained(head, Inserted(EventsOf(list), k, event))
      ensures Queued(list, event) ==>
                var front := EventsOf(list)[..|list| - 1];
                var at := if k < |front| then k else |front|;
                Looped(head, front[..at], [event] + front[at..])
    {
      hide InsertAt, Inserted, Chained, Looped, Ahead, Queued;
      ghost var q := EventsOf(list);
      QueuedIsMember(list, event);
      OwnPlaceIsTaken(list, timestamp);
      ChainHead(head, q);
      k := 0;
      if head == null || Ahead(timestamp, head.timestamp) < 0 {
        InsertAtIs(list, timestamp, 0);
        LinkBehind(null, event, q, 0);
      } else {
        var cursor, i := FindCursor(timestamp);
        k := i + 1;
        LinkBehind(cursor, event, q, k);
      }
    }

    /** Writes an event's fields. The list is cut behind an event that is queued. */
    method Stamp(event: Event, timestamp: Time, id: nat)
      requires Valid()
      modifies this`list, event
      ensures event.timestamp == timestamp && event.id == id
      ensures Chained(head, EventsOf(list)) && Carried(list)
      ensures list == if !Queued(old(list), event) then old(list)
                      else old(list)[..IndexOf(old(list), event)] + [Entry(event, timestamp, id, inserted)]
      ensures forall e | e in EventsOf(list) :: e in EventsOf(old(list))
      ensures Queued(list, event) <==> Queued(old(list), event)
      ensures Queued(list, event) ==> list[|list| - 1] == Entry(event, timestamp, id, inserted)
    {
      hide IndexOf;
      ghost var q, j := EventsOf(list), IndexOf(list, event);
      QueuedIsMember(list, event);
      event.timestamp, event.id, event.next := timestamp, id, null;
      if j < |list| {
        assert forall i | 0 <= i < |q| && i != j :: q[i] != event;
        assert forall i {:trigger q[i].next} | 0 <= i < j :: q[i].next == Successor(q, i);
        CutIsChained(head, q, j);
        LastIsQueued(list[..j], Entry(event, timestamp, id, inserted));
        list := list[..j] + [Entry(event, timestamp, id, inserted)];
        assert EventsOf(list) == q[..j + 1];
      }
    }

    /** Stamps an event and links it where it belongs. */
    method Splice(event: Event, timestamp: Time, id: nat)
      requires Valid()
      modifies this`head, this`list, event, EventsOf(list)`next
      ensures event.timestamp == timestamp && event.id == id
      ensures !Queued(old(list), event) ==>
                && list == Inserted(old(list), InsertAt(old(list), timestamp), Entry(event, timestamp, id, inserted))
                && Chained(head, EventsOf(list)) && Carried(list)
      ensures Queued(old(list), event) ==>
                && LoopsAt(head, old(list)[..IndexOf(old(list), event)], event, timestamp)
                && !Chained(head, EventsOf(list))
    {
      hide Ahead, InsertAt, Inserted, LoopsAt, IndexOf, Chained, EventsOf, Carried, Queued;
      ghost var entry, front := Entry(event, timestamp, id, inserted), list[..IndexOf(list, event)];
      Stamp(event, timestamp, id);
      ghost var k := Link(event, timestamp);
      if Queued(list, event) {
        LinkedToLoop(head, list, front, entry, k);
      } else {
        InsertedEntries(list, k, entry);
      }
      list := Inserted(list, k, entry);
    }

    /** Inserts an event. It keeps the list a list exactly when the event is not queued yet. A queued event drops what
        stood behind it and closes a loop, so that walking the list never ends. */
    method InsertEvent(event: Event, timestamp: Time, id: nat)
      requires Valid()
      modifies this`head, this`list, this`inserted, event, EventsOf(list)`next
      ensures event.timestamp == timestamp && event.id == id
      ensures Valid() <==> !Queued(old(list), event)
      ensures !Queued(old(list), event) ==>
                && State() == AfterAct(old(State()), Insert(event, timestamp, id))
                && forall start | Ordered(old(list), start) && InWindow(timestamp, start) :: Ordered(list, start)
      ensures Queued(old(list), event) ==> LoopsAt(head, old(list)[..IndexOf(old(list), event)], event, timestamp)
    {
      hide InsertAt, Inserted, LoopsAt, IndexOf, Chained, EventsOf, Carried, Numbered, Queued, Ordered, InWindow;
      ActKeepsEveryOrder(State(), Insert(event, timestamp, id));
      ActKeepsNumbers(State(), Insert(event, timestamp, id));
      Splice(event, timestamp, id);
      inserted := inserted + 1;
    }

    /** The search loop of the removal, and the event before the one found. */
    method FindEvent(event: Event) returns (found: bool, previous: Event?, ghost k: nat)
      requires Valid()
      ensures k == IndexOf(list, event) && (found <==> k < |list|)
      ensures found ==> previous == if k == 0 then null else list[k - 1].event
    {
      hide IndexOf;
      previous, k := null, 0;
      ghost var q := EventsOf(list);
      var cursor := head;
      while cursor != null && cursor != event
        invariant k <= |q| && forall i | 0 <= i < k :: q[i] != event
        invariant cursor == if k < |q| then q[k] else null
        invariant previous == if k == 0 then null else q[k - 1]
        decreases |q| - k
      {
        assert cursor.next == Successor(q, k);
        previous, cursor := cursor, cursor.next;
        k := k + 1;
      }
      found := cursor != null;
      IndexOfIs(list, event, k);
    }

    method Unlink(previous: Event?, event: Event, ghost q: seq<Event>, ghost k: nat)
      requires Chained(head, q) && k < |q| && q[k] == event && previous == if k == 0 then null else q[k - 1]
      modifies this`head, q`next
      ensures Chained(head, Cut(q, k)) && event !in Cut(q, k) && event.next == null
    {
      hide Cut;
      assert event.next == Successor(q, k);
      if previous == null {
        head := event.next;
      } else {
        previous.next := event.next;
      }
      event.next := null;
      CutDistinct(q, k);
      CutLinks(q, k);
    }

    /** Unlinks an event; an event that is not queued leaves the list alone. */
    method RemoveEvent(event: Event)
      requires Valid()
      modifies this`head, this`list, EventsOf(list)`next
      ensures Valid() && State() == AfterAct(old(State()), Remove(event))
      ensures Queued(old(list), event) ==> !Queued(list, event) && event.next == null
      ensures forall start | Ordered(old(list), start) :: Ordered(list, start)
    {
      hide Cut, IndexOf, Chained, Ordered;
      ActKeepsEveryOrder(State(), Remove(event));
      var found, previous, k := FindEvent(event);
      if found {
        CutEntries(list, k);
        Unlink(previous, event, EventsOf(list), k);
        list := Cut(list, k);
        QueuedIsMember(list, event);
      }
    }

    /** Takes the first event off the list. */
    method PopFront() returns (event: Event)
      requires Valid() && head != null
      modifies this`head, this`list, EventsOf(list)`next
      ensures old(list) != [] && event == old(list)[0].event && event.next == null && !Queued(list, event)
      ensures Valid() && State() == old(State()).(list := old(list)[1..])
    {
      event := head;
      head := event.next;
      event.next := null;
      ghost var q := EventsOf(list);
      list := list[1..];
      assert forall i | 0 <= i < |list| :: EventsOf(list)[i] == q[i + 1];
      QueuedIsMember(list, event);
    }

    method Perform(a: Act)
      requires Valid() && (a.Insert? ==> !Queued(list, a.event))
      modifies this`head, this`list, this`inserted, this`hasHandler, this`clockUs
      modifies EventsOf(list)`next, InsertedEvents([a])
      ensures Valid() && State() == AfterAct(old(State()), a)
    {
      match a {
        case Insert(event, time, id) =>
          assert a in [a];
          InsertEvent(event, time, id);
        case Remove(event) => RemoveEvent(event);
        case SetHandler(present) => hasHandler := present;
        case Pass(us) => clockUs := clockUs + us;
        case Reset => ResetTicker();
      }
    }

    /** One call of the handler. */
    method PerformAll(acts: seq<Act>)
      requires Valid() && SoundActs(State(), acts)
      modifies this`head, this`list, this`inserted, this`hasHandler, this`clockUs
      modifies EventsOf(list)`next, InsertedEvents(acts)
      ensures Valid() && State() == AfterActs(old(State()), acts)
    {
      hide AfterAct, EventsOf, SoundActs, Queued;
      ghost var start := State();
      var i := 0;
      while i < |acts|
        invariant 0 <= i <= |acts| && Valid() && State() == AfterActs(start, acts[..i])
      {
        SoundUpTo(start, acts, i);
        OnlyInserts(start, acts, i);
        Perform(acts[i]);
        assert acts[..i + 1][..i] == acts[..i];
        i := i + 1;
      }
      assert acts[..i] == acts;
    }

    /** Takes the head off the list and calls the handler with its id. */
    method ServeHead(script: seq<seq<Act>>)
      requires Valid() && HeadIsDue(State()) && Sound(State(), script)
      modifies this`head, this`list, this`inserted, this`hasHandler, this`clockUs, this`fired
      modifies EventsOf(list)`next, InsertedEvents(FirstCall(script))
      ensures Valid() && State() == AfterHead(old(State()), script) && fired == old(fired) + [old(list)[0].id]
      ensures forall e | e in EventsOf(list) ::
                e in EventsOf(old(list)) || e in InsertedEvents(FirstCall(script))
    {
      hide Due, EventsOf, SoundActs, AfterActs, InsertedEvents, Chained;
      PoppedEvents(list);
      ChainHead(head, EventsOf(list));
      var event := PopFront();
      fired := fired + [event.id];
      AllInserts(State(), FirstCall(script));
      PerformAll(FirstCall(script));
    }

    /** Takes due events off the list and calls the handler with their ids, which may insert and remove events, move
        the clock and replace the handler. The script says what each call does. */
    method DispatchDueEvents(script: seq<seq<Act>>)
      requires Valid() && Sound(State(), script)
      modifies this`head, this`list, this`inserted, this`hasHandler, this`clockUs, this`fired
      modifies EventsOf(list)`next, ScriptedEvents(script)
      ensures Valid()
      ensures var (t, served) := Served(old(State()), script); State() == t && fired == old(fired) + IdsOf(served)
      ensures forall start |
                Ordered(old(list), start) && (forall acts | acts in script :: InsertsWithin(acts, start)) ::
                && Ordered(list, start)
                && (hasHandler && InWindow(Now(clockUs), start) ==>
                      forall i | 0 <= i < |list| :: !Due(list[i].time, Now(clockUs)))
    {
      hide Valid, Due, EventsOf, Served, Sound, AfterHead, ScriptedEvents, InsertedEvents, FirstCall, LaterCalls;
      hide Ordered, InWindow, InsertsWithin;
      ValidIsNumbered();
      NothingDueIsLeftInAnyWindow(State(), script);
      var left := script;
      ghost var start, past, known := State(), [], EventsOf(list);
      HeadOfList();
      while hasHandler && head != null && Due(head.timestamp, Now(clockUs))
        invariant Valid() && Sound(State(), left) && ScriptedEvents(left) <= ScriptedEvents(script)
        invariant hasHandler && head != null && Due(head.timestamp, Now(clockUs)) <==> HeadIsDue(State())
        invariant Served(start, script).0 == Served(State(), left).0
        invariant Served(start, script).1 == past + Served(State(), left).1
        invariant fired == old(fired) + IdsOf(past)
        invariant forall e | e in EventsOf(list) :: e in known || e in ScriptedEvents(script)
        decreases |left|, |list|
      {
        ghost var first := list[0];
        CallsOfScript(left);
        ServedSteps(State(), left);
        ServeHead(left);
        HeadOfList();
        IdsOfMore(past, first);
        past := past + [first];
        left := LaterCalls(left);
      }
      ServedSteps(State(), left);
    }

    lemma ValidIsNumbered()
      requires Valid()
      ensures Numbered(State())
    {
    }

    lemma HeadOfList()
      requires Valid()
      ensures hasHandler && head != null && Due(head.timestamp, Now(clockUs)) <==> HeadIsDue(State())
    {
      ChainHead(head, EventsOf(list));
    }
  }

  lemma ServedSteps(t: Ticker, script: seq<seq<Act>>)
    ensures !HeadIsDue(t) ==> Served(t, script) == (t, [])
    ensures HeadIsDue(t) ==>
              var t1, later := AfterHead(t, script), LaterCalls(script);
              && (Sound(t, script) ==> Sound(t1, later))
              && Served(t, script) == (Served(t1, later).0, [t.list[0]] + Served(t1, later).1)
  {
  }

  lemma IdsOfMore(served: seq<Entry>, e: Entry)
    ensures IdsOf(served + [e]) == IdsOf(served) + [e.id]
  {
  }

  lemma PoppedEvents(list: seq<Entry>)
    ensures list != [] ==> forall e | e in EventsOf(list[1..]) :: e in EventsOf(list)
  {
    if list != [] { assert EventsOf(list[1..]) == EventsOf(list)[1..]; }
  }

  lemma CallsOfScript(script: seq<seq<Act>>)
    ensures InsertedEvents(FirstCall(script)) <= ScriptedEvents(script)
    ensures ScriptedEvents(LaterCalls(script)) <= ScriptedEvents(script)
    ensures if script == [] then LaterCalls(script) == [] else |LaterCalls(script)| < |script|
  {
  }

  lemma AllInserts(t: Ticker, acts: seq<Act>)
    ensures forall e | e in EventsOf(AfterActs(t, acts).list) :: e in EventsOf(t.list) || e in InsertedEvents(acts)
  {
    hide AfterActs, EventsOf, InsertedEvents;
    assert acts[..|acts|] == acts;
    OnlyInserts(t, acts, |acts|);
  }

  lemma {:induction false} SoundUpTo(t: Ticker, acts: seq<Act>, i: nat)
    requires SoundActs(t, acts) && i < |acts|
    ensures acts[i].Insert? ==> !Queued(AfterActs(t, acts[..i]).list, acts[i].event)
  {
    hide AfterActs, Queued;
    if i < |acts| - 1 {
      SoundUpTo(t, acts[..|acts| - 1], i);
      assert acts[..|acts| - 1][..i] == acts[..i];
    }
  }

  /** Only events that were queued or are inserted get queued. */
  lemma {:induction false} OnlyInserts(t: Ticker, acts: seq<Act>, i: nat)
    requires i <= |acts|
    ensures forall e | e in EventsOf(AfterActs(t, acts[..i]).list) :: e in EventsOf(t.list) || e in InsertedEvents(acts)
  {
    hide AfterAct, InsertedEvents;
    if i > 0 {
      OnlyInserts(t, acts, i - 1);
      assert acts[..i][..i - 1] == acts[..i - 1];
      OnlyInsert(AfterActs(t, acts[..i - 1]), acts[i - 1]);
      InsertsOne(acts, i - 1);
    }
  }

  lemma InsertsOne(acts: seq<Act>, i: nat)
    requires i < |acts|
    ensures acts[i].Insert? ==> acts[i].event in InsertedEvents(acts)
  {
  }

  lemma OnlyInsert(t: Ticker, a: Act)
    ensures forall e | e in EventsOf(AfterAct(t, a).list) :: e in EventsOf(t.list) || (a.Insert? && e == a.event)
  {
    hide InsertAt, IndexOf, Inserted, Cut;
    match a
    case Insert(event, time, id) =>
      InsertedEntries(t.list, InsertAt(t.list, time), Entry(event, time, id, t.inserted));
    case Remove(event) =>
      if IndexOf(t.list, event) < |t.list| { CutEntries(t.list, IndexOf(t.list, event)); }
    case _ =>
  }

  lemma InsertAtIs(list: seq<Entry>, t: Time, k: nat)
    requires k <= |list| && (forall i | 0 <= i < k :: Ahead(t, list[i].time) >= 0)
    requires k < |list| ==> Ahead(t, list[k].time) < 0
    ensures InsertAt(list, t) == k
  {
  }

  lemma IndexOfIs(list: seq<Entry>, event: Event, k: nat)
    requires k <= |list| && (forall i | 0 <= i < k :: list[i].event != event)
    requires k < |list| ==> list[k].event == event
    ensures IndexOf(list, event) == k
  {
  }

  lemma QueuedIsMember(list: seq<Entry>, event: Event)
    ensures Queued(list, event) <==> event in EventsOf(list)
  {
    if event in EventsOf(list) {
      var i :| 0 <= i < |list| && EventsOf(list)[i] == event;
    }
  }

  lemma CutIsChained(head: Event?, q: seq<Event>, j: nat)
    requires j < |q| && Distinct(q) && head == q[0] && q[j].next == null
    requires forall i {:trigger q[i].next} | 0 <= i < j :: q[i].next == Successor(q, i)
    ensures Chained(head, q[..j + 1])
  {
    var r := q[..j + 1];
    assert forall i | 0 <= i < |r| :: r[i] == q[i];
  }

  lemma InsertAtInCut(front: seq<Entry>, entry: Entry)
    ensures var k := InsertAt(front, entry.time);
            InsertAt(front + [entry], entry.time) == if k < |front| then k else |front| + 1
  {
    var k := InsertAt(front, entry.time);
    InsertAtIs(front + [entry], entry.time, if k < |front| then k else |front| + 1);
  }

  lemma InsertedEntries(list: seq<Entry>, k: nat, e: Entry)
    requires k <= |list|
    ensures EventsOf(Inserted(list, k, e)) == Inserted(EventsOf(list), k, e.event)
    ensures Carried(list) && e.event.timestamp == e.time && e.event.id == e.id ==> Carried(Inserted(list, k, e))
  {
    hide Inserted;
    var list' := Inserted(list, k, e);
    assert forall i | 0 <= i < |list'| :: list'[i] == if i < k then list[i] else if i == k then e else list[i - 1];
  }

  lemma LastIsQueued(front: seq<Entry>, entry: Entry)
    ensures Queued(front + [entry], entry.event)
  {
    assert (front + [entry])[|front|] == entry;
  }

  lemma LinkedToLoop(head: Event?, list: seq<Entry>, front: seq<Entry>, entry: Entry, k: nat)
    requires list == front + [entry] && k == InsertAt(list, entry.time)
    requires var q := EventsOf(list)[..|list| - 1];
             var at := if k < |q| then k else |q|;
             Looped(head, q[..at], [entry.event] + q[at..])
    ensures LoopsAt(head, front, entry.event, entry.time) && !Chained(head, EventsOf(Inserted(list, k, entry)))
  {
    hide Looped, InsertAt, Inserted, Chained;
    assert EventsOf(list)[..|list| - 1] == EventsOf(front);
    InsertAtInCut(front, entry);
    var at := InsertAt(front, entry.time);
    LoopsNeverEnd(head, EventsOf(front)[..at], [entry.event] + EventsOf(front)[at..],
                  EventsOf(Inserted(list, k, entry)));
  }

  lemma ActKeepsNumbers(t: Ticker, a: Act)
    requires Numbered(t)
    ensures Numbered(AfterAct(t, a))
  {
    hide InsertAt, IndexOf, Inserted, Cut;
  }

  lemma CutEntries(list: seq<Entry>, k: nat)
    requires k < |list|
    ensures EventsOf(Cut(list, k)) == Cut(EventsOf(list), k)
    ensures Carried(list) ==> Carried(Cut(list, k))
  {
    hide Cut;
    var list' := Cut(list, k);
    assert forall i | 0 <= i < |list'| :: list'[i] == list[if i < k then i else i + 1];
  }

  /** An event goes behind another of the same time, so never to the place before the last one of its own time. */
  lemma OwnPlaceIsTaken(list: seq<Entry>, t: Time)
    ensures list != [] && list[|list| - 1].time == t ==> InsertAt(list, t) != |list| - 1
  {
  }

  lemma ChainHead(head: Event?, q: seq<Event>)
    requires Chained(head, q)
    ensures head == if q == [] then null else q[0]
  {
  }

  lemma CutLinks(q: seq<Event>, k: nat)
    requires k < |q|
    requires forall i {:trigger q[i].next} | 0 <= i < |q| && i != k - 1 && i != k :: q[i].next == Successor(q, i)
    requires k > 0 ==> q[k - 1].next == Successor(q, k)
    ensures var r := Cut(q, k); forall i {:trigger r[i].next} | 0 <= i < |r| :: r[i].next == Successor(r, i)
  {
  }

  lemma CutDistinct(q: seq<Event>, k: nat)
    requires k < |q| && Distinct(q)
    ensures Distinct(Cut(q, k)) && q[k] !in Cut(q, k)
  {
  }

  lemma InsertedDistinct(q: seq<Event>, k: nat, event: Event)
    requires k <= |q| && Distinct(q) && event !in q
    ensures Distinct(Inserted(q, k, event))
  {
  }

  lemma InsertedLinks(q: seq<Event>, k: nat, event: Event)
    requires k <= |q|
    requires forall i {:trigger q[i].next} | 0 <= i < |q| && i != k - 1 :: q[i].next == Successor(q, i)
    requires k > 0 ==> q[k - 1].next == event
    requires event.next == if k < |q| then q[k] else null
    ensures var r := Inserted(q, k, event); forall i {:trigger r[i].next} | 0 <= i < |r| :: r[i].next == Successor(r, i)
  {
  }

  /** The events behind the place of insertion are linked to themselves. */
  lemma ClosesLoop(head: Event?, q: seq<Event>, k: nat, event: Event)
    requires k <= |q| && q != [] && Distinct(q) && event == q[|q| - 1] && k != |q| - 1
    requires head == if k == 0 then event else q[0]
    requires forall i {:trigger q[i].next} | 0 <= i < |q| - 1 && i != k - 1 :: q[i].next == q[i + 1]
    requires k > 0 ==> q[k - 1].next == event
    requires k < |q| ==> event.next == q[k]
    ensures var front := q[..|q| - 1];
            var at := if k < |front| then k else |front|;
            Looped(head, front[..at], [event] + front[at..])
  {
    hide Distinct;
    var front := q[..|q| - 1];
    var at := if k < |front| then k else |front|;
    var stem, loop := front[..at], [event] + front[at..];
    var r := stem + loop;
    LoopVisits(q, at);
    forall i | 0 <= i < |r|
      ensures r[i].next == if i + 1 < |r| then r[i + 1] else loop[0]
    {
      if i < at {
        assert r[i] == q[i];
      } else if i > at {
        assert r[i] == q[i - 1];
      }
    }
  }

  lemma LoopVisits(q: seq<Event>, at: nat)
    requires q != [] && at <= |q| - 1 && Distinct(q)
    ensures var front, event := q[..|q| - 1], q[|q| - 1];
            var r := front[..at] + ([event] + front[at..]);
            && |r| == |q| && Distinct(r)
            && forall i | 0 <= i < |r| :: r[i] == if i < at then q[i] else if i == at then event else q[i - 1]
  {
  }

  /** A list that loops is no list: nothing that ends is what the pointers visit. */
  lemma LoopsNeverEnd(head: Event?, stem: seq<Event>, loop: seq<Event>, q: seq<Event>)
    requires Looped(head, stem, loop)
    ensures !Chained(head, q)
  {
    if Chained(head, q) {
      StaysInside(stem, loop, q, |q| - 1);
    }
  }

  lemma {:induction false} StaysInside(stem: seq<Event>, loop: seq<Event>, q: seq<Event>, n: nat)
    requires q != [] && n < |q| && Looped(q[0], stem, loop) && Chained(q[0], q)
    ensures q[n] in stem + loop && q[n].next != null
  {
    var r := stem + loop;
    if n > 0 {
      StaysInside(stem, loop, q, n - 1);
      assert q[n - 1].next == Successor(q, n - 1);
      var i :| 0 <= i < |r| && r[i] == q[n - 1];
      assert r[i].next == if i + 1 < |r| then r[i + 1] else loop[0];
      assert loop[0] == r[|stem|];
    }
    var j :| 0 <= j < |r| && r[j] == q[n];
    assert r[j].next == if j + 1 < |r| then r[j + 1] else loop[0];
  }
}
