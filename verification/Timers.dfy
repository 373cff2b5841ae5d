/** The discrete-event timer core. Three match timers share one clock; the reference meaning of time passing is
    one-cycle stepping (`Stepped`), and the scheduler's jump to the next match is measured against it. */
module Timers {
  import opened Arithmetic
  import opened Interrupts

  const CLOCK_RANGE: nat := 0x1_0000_0000_0000_0000

  predicate MatchEnabled(s: Core, i: nat)
    requires |s.timers| == 4 && s.nvic.Valid() && i < TIMER_COUNT
  {
    var t := s.timers[i];
    s.nvic.Eligible(TimerIrq(i)) && t.running && t.interruptOnMatch && t.mr0 != 0
  }

  predicate Due(s: Core, i: nat)
    requires |s.timers| == 4 && s.nvic.Valid() && i < TIMER_COUNT
  {
    MatchEnabled(s, i) && s.timers[i].tc >= s.timers[i].mr0
  }

  ghost predicate AnyDue(s: Core)
    requires s.Valid()
  {
    Due(s, 0) || Due(s, 1) || Due(s, 2)
  }

  function TimerIrq(i: nat): int {
    i + 1
  }

  function PclkHz(coreClock: Word): (hz: nat)
    ensures 1 <= hz < 0x4000_0000
  {
    if coreClock / 4 < 1 then 1 else coreClock / 4
  }

  function Counted(t: Timer, cycles: nat): Timer {
    if t.running then t.(tc := Rem(t.tc + cycles, WORD_RANGE)) else t
  }

  /** Elapsed cycles in units of one microsecond of the core clock divided by its frequency. */
  function MicroCycles(cycles: nat): nat {
    cycles * 1_000_000
  }

  /** The clock adds the whole microseconds of the elapsed cycles and carries the rest. */
  function ClockAfter(us: nat, remainder: nat, cycles: nat, hz: nat): (nat, nat)
    requires hz > 0
  {
    var elapsed := remainder + MicroCycles(cycles);
    (Rem(us + Quot(elapsed, hz), CLOCK_RANGE), Rem(elapsed, hz))
  }

  /** Time passes for all running counters and for the clock; nothing is raised. */
  ghost function Tick(s: Core, cycles: nat): (s': Core)
    requires s.Valid()
    ensures s'.Valid()
  {
    if cycles == 0 then s
    else
      var clock := ClockAfter(s.clockUs, s.remainder, cycles, PclkHz(s.coreClock));
      var t := s.timers;
      s.(timers := [Counted(t[0], cycles), Counted(t[1], cycles), Counted(t[2], cycles), t[3]],
         clockUs := clock.0, remainder := clock.1)
  }

  ghost function RaiseIfDue(s: Core, i: nat): (s': Core)
    requires s.Valid() && i < TIMER_COUNT
    ensures s'.Valid()
  {
    if Due(s, i) then Push(AtMatch(s, i), TimerIrq(i), TimerMatch(i)) else s
  }

  /** The due matches among the first n timers, raised in timer order. */
  ghost function RaiseDue(s: Core, n: nat): (s': Core)
    requires s.Valid() && n <= TIMER_COUNT
    ensures s'.Valid()
  {
    if n == 0 then s else RaiseIfDue(RaiseDue(s, n - 1), n - 1)
  }

  /** Serve the matches that are due now. */
  ghost function Settle(isr: Isr, s: Core): (s': Core)
    requires s.Valid()
    ensures s'.Valid()
  {
    if AnyDue(s) then RunAll(isr, RaiseDue(s, TIMER_COUNT)) else s
  }

  ghost function Cycle(isr: Isr, s: Core): (s': Core)
    requires s.Valid()
    ensures s'.Valid()
  {
    Settle(isr, Tick(Settle(isr, s), 1))
  }

  /** The reference semantics: n single cycles. */
  ghost function Stepped(isr: Isr, s: Core, n: nat): (s': Core)
    requires s.Valid()
    ensures s'.Valid()
    decreases n
  {
    if n == 0 then s else Cycle(isr, Stepped(isr, s, n - 1))
  }

  /* ----- Handlers that leave the timer and NVIC registers alone ----- */

  ghost predicate CalmAction(a: Action) {
    match a
    case Raise(_, _, body) => CalmBody(body)
    case DispatchNext => true
    case DispatchAll => true
    case _ => false
  }

  ghost predicate CalmBody(body: seq<Action>) {
    body == [] || (CalmAction(body[0]) && CalmBody(body[1..]))
  }

  ghost predicate CalmPending(p: Pending) {
    match p.handler
    case Device(_, body) => CalmBody(body)
    case TimerMatch(i) => p.irq == TimerIrq(i)
  }

  ghost predicate Calm(isr: Isr, s: Core) {
    && s.Valid()
    && (forall i, core :: CalmBody(isr(i, core)))
    && forall k | 0 <= k < |s.pending| :: CalmPending(s.pending[k])
  }

  function Entries(q: seq<Pending>, i: nat): nat {
    if q == [] then 0
    else Entries(q[..|q| - 1], i) + (if q[|q| - 1].handler == TimerMatch(i) then 1 else 0)
  }

  /** How often the handler of timer i has been called. */
  function Ran(log: seq<Call>, i: nat): nat {
    if log == [] then 0
    else Ran(log[..|log| - 1], i) + (if log[|log| - 1].handler == TimerMatch(i) then 1 else 0)
  }

  lemma {:induction false} EntriesWithout(q: seq<Pending>, k: nat, i: nat)
    requires k < |q|
    ensures Entries(q, i) == Entries(Without(q, k), i) + if q[k].handler == TimerMatch(i) then 1 else 0
  {
    var last := |q| - 1;
    if k == last {
      assert Without(q, k) == q[..last];
    } else {
      EntriesWithout(q[..last], k, i);
      assert Without(q, k)[..last - 1] == Without(q[..last], k);
    }
  }

  lemma EntriesOfAppend(q: seq<Pending>, p: Pending, i: nat)
    ensures Entries(q + [p], i) == Entries(q, i) + if p.handler == TimerMatch(i) then 1 else 0
  {
    assert (q + [p])[..|q|] == q;
  }

  lemma RanOfAppend(log: seq<Call>, c: Call, i: nat)
    ensures Ran(log + [c], i) == Ran(log, i) + if c.handler == TimerMatch(i) then 1 else 0
  {
    assert (log + [c])[..|log|] == log;
  }

  lemma {:induction false} NoEntries(q: seq<Pending>, i: nat)
    requires forall k | 0 <= k < |q| :: q[k].handler != TimerMatch(i)
    ensures Entries(q, i) == 0
  {
    if q != [] {
      NoEntries(q[..|q| - 1], i);
    }
  }

  /** What dispatching does to timer i: matches are called, never created; without a call the timer is untouched,
      after a call it has been reset and stopped as configured. */
  ghost predicate TimerServed(s: Core, s': Core, i: nat)
    requires |s.timers| == |s'.timers| == 4 && i < TIMER_COUNT
  {
    var t, t' := s.timers[i], s'.timers[i];
    && Entries(s.pending, i) + Ran(s.log, i) == Entries(s'.pending, i) + Ran(s'.log, i)
    && Ran(s.log, i) <= Ran(s'.log, i)
    && t' == if Ran(s.log, i) == Ran(s'.log, i) then t
             else t.(tc := if t.resetOnMatch then 0 else t.mr0, running := t.running && !t.stopOnMatch)
  }

  /* ----- What dispatching does to a timer the handlers leave alone ----- */

  /** The handlers never store to timer i, never enable or disable its interrupt, and never touch the global mask. */
  ghost predicate LeavesAction(a: Action, i: nat) {
    match a
    case Raise(_, _, body) => LeavesBody(body, i)
    case SetEnabled(irq, _) => irq != TimerIrq(i)
    case SetGlobal(_) => false
    case StoreTimer(timer, _) => timer != i
    case _ => true
  }

  ghost predicate LeavesBody(body: seq<Action>, i: nat) {
    body == [] || (LeavesAction(body[0], i) && LeavesBody(body[1..], i))
  }

  ghost predicate LeavesPending(p: Pending, i: nat) {
    match p.handler
    case Device(_, body) => LeavesBody(body, i)
    case TimerMatch(j) => j == i ==> p.irq == TimerIrq(i)
  }

  ghost predicate Leaves(isr: Isr, s: Core, i: nat) {
    && s.Valid()
    && (forall j, core :: LeavesBody(isr(j, core), i))
    && forall k | 0 <= k < |s.pending| :: LeavesPending(s.pending[k], i)
  }

  ghost predicate ServedFor(isr: Isr, s: Core, s': Core, i: nat) {
    && i < TIMER_COUNT && Leaves(isr, s, i) && Leaves(isr, s', i) && TimerServed(s, s', i)
    && s'.nvic.Eligible(TimerIrq(i)) == s.nvic.Eligible(TimerIrq(i))
  }

  lemma ServedForAgain(isr: Isr, s: Core, s1: Core, s2: Core, i: nat)
    requires ServedFor(isr, s, s1, i) && ServedFor(isr, s1, s2, i)
    ensures ServedFor(isr, s, s2, i)
  {
    hide Leaves, Entries, Ran;
  }

  /** Raising, stores to other timers, and changes to other interrupts. */
  lemma SimpleActionServes(isr: Isr, a: Action, s: Core, i: nat)
    requires i < TIMER_COUNT && Leaves(isr, s, i) && LeavesAction(a, i) && !a.DispatchNext? && !a.DispatchAll?
    ensures ServedFor(isr, s, RunAction(isr, a, s), i)
  {
    hide Entries, Ran;
    if a.Raise? {
      EntriesOfAppend(s.pending, Pending(a.irq, s.nextSequence, Device(a.id, a.body)), i);
    }
  }

  lemma {:induction false} RunActionServesTimer(isr: Isr, a: Action, s: Core, i: nat)
    requires i < TIMER_COUNT && Leaves(isr, s, i) && LeavesAction(a, i)
    ensures ServedFor(isr, s, RunAction(isr, a, s), i)
    decreases TimerEntries(s.pending), PendingWeight(s.pending) + ActionWeight(a), 0
  {
    match a {
      case DispatchNext => DispatchNextServesTimer(isr, s, i);
      case DispatchAll => RunAllServesTimer(isr, s, i);
      case _ => SimpleActionServes(isr, a, s, i);
    }
  }

  lemma {:induction false} RunBodyServesTimer(isr: Isr, body: seq<Action>, s: Core, i: nat)
    requires i < TIMER_COUNT && Leaves(isr, s, i) && LeavesBody(body, i)
    ensures ServedFor(isr, s, RunBody(isr, body, s), i)
    decreases TimerEntries(s.pending), PendingWeight(s.pending) + BodyWeight(body), 1
  {
    if body != [] {
      var s1 := RunAction(isr, body[0], s);
      RunActionServesTimer(isr, body[0], s, i);
      RunBodyServesTimer(isr, body[1..], s1, i);
      ServedForAgain(isr, s, s1, RunBody(isr, body[1..], s1), i);
    }
  }

  lemma TakenEntries(s: Core, k: nat, i: nat)
    requires s.Valid() && k < |s.pending|
    ensures var s' := Taken(s, k);
            var hit := if s.pending[k].handler == TimerMatch(i) then 1 else 0;
            Entries(s'.pending, i) == Entries(s.pending, i) - hit && Ran(s'.log, i) == Ran(s.log, i) + hit
  {
    EntriesWithout(s.pending, k, i);
    RanOfAppend(s.log, Call(s.pending[k].sequence, s.pending[k].handler, s.clockUs), i);
  }

  lemma DeviceTakenServes(isr: Isr, s: Core, k: nat, i: nat)
    requires i < TIMER_COUNT && Leaves(isr, s, i) && k < |s.pending| && s.pending[k].handler.Device?
    ensures ServedFor(isr, s, Taken(s, k), i)
  {
    hide Entries, Ran;
    TakenEntries(s, k, i);
  }

  lemma MatchTakenServes(isr: Isr, s: Core, k: nat, s2: Core, i: nat)
    requires i < TIMER_COUNT && Leaves(isr, s, i) && k < |s.pending| && s.pending[k].handler.TimerMatch?
    requires s.Valid() && ServedFor(isr, AtMatch(Taken(s, k), s.pending[k].handler.timer), s2, i)
    ensures ServedFor(isr, s, AfterMatch(s2, s.pending[k].handler.timer), i)
  {
    hide Entries, Ran;
    TakenEntries(s, k, i);
  }

  lemma {:induction false} DispatchNextServesTimer(isr: Isr, s: Core, i: nat)
    requires i < TIMER_COUNT && Leaves(isr, s, i)
    ensures ServedFor(isr, s, TryDispatchNext(isr, s), i)
    decreases TimerEntries(s.pending), PendingWeight(s.pending), 3
  {
    hide Entries, Ran, TimerServed;
    var k := Best(s);
    if k == -1 {
      NothingServed(isr, s, i);
    } else {
      WeightsWithout(s.pending, k);
      var s1 := Taken(s, k);
      assert LeavesPending(s.pending[k], i);
      match s.pending[k].handler {
        case Device(_, body) =>
          DeviceTakenServes(isr, s, k, i);
          RunBodyServesTimer(isr, body, s1, i);
          ServedForAgain(isr, s, s1, RunBody(isr, body, s1), i);
        case TimerMatch(m) =>
          var body := isr(m, AtMatch(s1, m));
          RunBodyServesTimer(isr, body, AtMatch(s1, m), i);
          MatchTakenServes(isr, s, k, RunBody(isr, body, AtMatch(s1, m)), i);
      }
    }
  }

  lemma NothingServed(isr: Isr, s: Core, i: nat)
    requires i < TIMER_COUNT && Leaves(isr, s, i)
    ensures ServedFor(isr, s, s, i)
  {
  }

  /** However the handlers dispatch, raise, mask other interrupts and store to other timers: timer i's matches are
      called once each, and then it resets or stops. */
  lemma {:induction false} RunAllServesTimer(isr: Isr, s: Core, i: nat)
    requires i < TIMER_COUNT && Leaves(isr, s, i)
    ensures ServedFor(isr, s, RunAll(isr, s), i)
    decreases TimerEntries(s.pending), PendingWeight(s.pending), 4
  {
    hide ServedFor, Leaves;
    LeavesIsValid(isr, s, i);
    if Best(s) == -1 {
      NothingServed(isr, s, i);
    } else {
      var s1 := TryDispatchNext(isr, s);
      DispatchNextServesTimer(isr, s, i);
      ServedForLeaves(isr, s, s1, i);
      RunAllServesTimer(isr, s1, i);
      ServedForAgain(isr, s, s1, RunAll(isr, s1), i);
    }
  }

  lemma LeavesIsValid(isr: Isr, s: Core, i: nat)
    requires Leaves(isr, s, i)
    ensures s.Valid()
  {
  }

  lemma ServedForLeaves(isr: Isr, s: Core, s': Core, i: nat)
    requires ServedFor(isr, s, s', i)
    ensures Leaves(isr, s', i)
  {
  }

  /* ----- What dispatching does when the handlers leave all registers alone ----- */

  ghost predicate Kept(isr: Isr, s: Core, s': Core) {
    Calm(isr, s') && s'.nvic == s.nvic && |s.timers| == 4 && s'.timers[3] == s.timers[3]
  }

  lemma {:induction false} RunActionKeeps(isr: Isr, a: Action, s: Core)
    requires Calm(isr, s) && CalmAction(a)
    ensures Kept(isr, s, RunAction(isr, a, s))
    decreases TimerEntries(s.pending), PendingWeight(s.pending) + ActionWeight(a), 0
  {
    match a {
      case Raise(irq, id, body) =>
      case DispatchNext => DispatchNextKeeps(isr, s);
      case DispatchAll => RunAllKeeps(isr, s);
    }
  }

  lemma {:induction false} RunBodyKeeps(isr: Isr, body: seq<Action>, s: Core)
    requires Calm(isr, s) && CalmBody(body)
    ensures Kept(isr, s, RunBody(isr, body, s))
    decreases TimerEntries(s.pending), PendingWeight(s.pending) + BodyWeight(body), 1
  {
    if body != [] {
      RunActionKeeps(isr, body[0], s);
      RunBodyKeeps(isr, body[1..], RunAction(isr, body[0], s));
    }
  }

  lemma TakenKeeps(isr: Isr, s: Core, k: nat)
    requires Calm(isr, s) && k < |s.pending|
    ensures Kept(isr, s, Taken(s, k)) && CalmPending(s.pending[k])
    ensures s.pending[k].handler.TimerMatch? ==> Kept(isr, s, AtMatch(Taken(s, k), s.pending[k].handler.timer))
  {
  }

  lemma AfterMatchKeeps(isr: Isr, s: Core, s': Core, i: nat)
    requires i < TIMER_COUNT && Kept(isr, s, s')
    ensures Kept(isr, s, AfterMatch(s', i))
  {
  }

  lemma KeptAgain(isr: Isr, s: Core, s1: Core, s2: Core)
    requires Kept(isr, s, s1) && Kept(isr, s1, s2)
    ensures Kept(isr, s, s2) && Calm(isr, s1)
  {
  }

  lemma {:induction false} DispatchNextKeeps(isr: Isr, s: Core)
    requires Calm(isr, s)
    ensures Kept(isr, s, TryDispatchNext(isr, s))
    decreases TimerEntries(s.pending), PendingWeight(s.pending), 3
  {
    var k := Best(s);
    if k != -1 {
      WeightsWithout(s.pending, k);
      TakenKeeps(isr, s, k);
      var s1 := Taken(s, k);
      match s.pending[k].handler {
        case Device(_, body) =>
          RunBodyKeeps(isr, body, s1);
          KeptAgain(isr, s, s1, RunBody(isr, body, s1));
        case TimerMatch(i) =>
          var s2 := RunBody(isr, isr(i, AtMatch(s1, i)), AtMatch(s1, i));
          RunBodyKeeps(isr, isr(i, AtMatch(s1, i)), AtMatch(s1, i));
          KeptAgain(isr, s, AtMatch(s1, i), s2);
          AfterMatchKeeps(isr, s, s2, i);
      }
    }
  }

  lemma {:induction false} RunAllKeeps(isr: Isr, s: Core)
    requires Calm(isr, s)
    ensures Kept(isr, s, RunAll(isr, s))
    decreases TimerEntries(s.pending), PendingWeight(s.pending), 4
  {
    if Best(s) != -1 {
      DispatchNextKeeps(isr, s);
      RunAllKeeps(isr, TryDispatchNext(isr, s));
    }
  }

  lemma {:induction false} CalmActionLeaves(a: Action, i: nat)
    requires CalmAction(a)
    ensures LeavesAction(a, i)
    decreases a
  {
    if a.Raise? { CalmBodyLeaves(a.body, i); }
  }

  lemma {:induction false} CalmBodyLeaves(body: seq<Action>, i: nat)
    requires CalmBody(body)
    ensures LeavesBody(body, i)
    decreases body
  {
    if body != [] {
      CalmActionLeaves(body[0], i);
      CalmBodyLeaves(body[1..], i);
    }
  }

  lemma CalmLeaves(isr: Isr, s: Core, i: nat)
    requires Calm(isr, s)
    ensures Leaves(isr, s, i)
  {
    forall j, core ensures LeavesBody(isr(j, core), i) {
      CalmBodyLeaves(isr(j, core), i);
    }
    forall k | 0 <= k < |s.pending| ensures LeavesPending(s.pending[k], i) {
      assert CalmPending(s.pending[k]);
      if s.pending[k].handler.Device? { CalmBodyLeaves(s.pending[k].handler.body, i); }
    }
  }

  ghost predicate Served(isr: Isr, s: Core, s': Core) {
    && Calm(isr, s) && Calm(isr, s')
    && s'.nvic == s.nvic && SameClock(s, s')
    && s'.timers[3] == s.timers[3]
    && forall i | 0 <= i < TIMER_COUNT :: TimerServed(s, s', i)
  }

  lemma RunAllServes(isr: Isr, s: Core)
    requires Calm(isr, s)
    ensures Served(isr, s, RunAll(isr, s))
  {
    hide TimerServed;
    RunAllKeeps(isr, s);
    RunAllKeepsClock(isr, s);
    forall i | 0 <= i < TIMER_COUNT ensures TimerServed(s, RunAll(isr, s), i) {
      CalmLeaves(isr, s, i);
      RunAllServesTimer(isr, s, i);
    }
  }

  /* ----- Serving due matches ----- */

  /** A match that leaves its timer as it is: running, at its match. */
  predicate Neither(t: Timer) {
    !t.resetOnMatch && !t.stopOnMatch
  }

  ghost predicate ResetOrStop(s: Core)
    requires s.Valid()
  {
    forall i | 0 <= i < TIMER_COUNT && MatchEnabled(s, i) :: !Neither(s.timers[i])
  }

  /** The due matches among the first n timers have been raised. */
  ghost predicate RaisedUpTo(s: Core, s': Core, n: nat)
    requires s.Valid() && n <= TIMER_COUNT
  {
    && s'.Valid() && s'.(timers := s.timers, pending := s.pending, nextSequence := s.nextSequence) == s
    && s'.timers[3] == s.timers[3]
    && s.pending <= s'.pending
    && (forall k | |s.pending| <= k < |s'.pending| :: IsMatch(s'.pending[k]))
    && forall i | 0 <= i < TIMER_COUNT ::
         && s'.timers[i] == (if i < n && Due(s, i) then s.timers[i].(tc := s.timers[i].mr0) else s.timers[i])
         && Entries(s'.pending, i) == Entries(s.pending, i) + if i < n && Due(s, i) then 1 else 0
  }

  ghost predicate IsMatch(p: Pending) {
    p.handler.TimerMatch? && p.irq == TimerIrq(p.handler.timer)
  }

  lemma RaiseOneMore(s: Core, s': Core, n: nat)
    requires s.Valid() && n < TIMER_COUNT && RaisedUpTo(s, s', n)
    ensures RaisedUpTo(s, RaiseIfDue(s', n), n + 1)
  {
    hide Entries;
    forall j | 0 <= j < TIMER_COUNT
      ensures Entries(RaiseIfDue(s', n).pending, j) == Entries(s'.pending, j) + if Due(s, n) && j == n then 1 else 0
    {
      EntriesOfAppend(s'.pending, Pending(TimerIrq(n), s'.nextSequence, TimerMatch(n)), j);
    }
  }

  lemma {:induction false} RaiseDueEffect(s: Core, n: nat)
    requires s.Valid() && n <= TIMER_COUNT
    ensures RaisedUpTo(s, RaiseDue(s, n), n)
  {
    hide Entries;
    if n > 0 {
      RaiseDueEffect(s, n - 1);
      RaiseOneMore(s, RaiseDue(s, n - 1), n - 1);
    }
  }

  /** The handler calls of timer i made by serving, and the state it is left in. */
  ghost predicate SettledTimer(s: Core, s': Core, i: nat)
    requires s.Valid() && s'.Valid() && i < TIMER_COUNT
  {
    var t := s.timers[i];
    && Ran(s.log, i) <= Ran(s'.log, i)
    && (Entries(s.pending, i) == 0 ==>
          && Entries(s'.pending, i) == 0
          && Ran(s'.log, i) == Ran(s.log, i) + if Due(s, i) then 1 else 0)
    && s'.timers[i] == (if Ran(s.log, i) == Ran(s'.log, i) then t
                        else t.(tc := if t.resetOnMatch then 0 else t.mr0, running := t.running && !t.stopOnMatch))
    && (AnyDue(s) && s.nvic.Eligible(TimerIrq(i)) ==>
          && Entries(s'.pending, i) == 0
          && Ran(s'.log, i) == Ran(s.log, i) + Entries(s.pending, i) + if Due(s, i) then 1 else 0)
  }

  /** After dispatching everything no match of an enabled interrupt is pending. */
  lemma NoMatchLeft(isr: Isr, s: Core, i: nat)
    requires Leaves(isr, s, i) && Best(s) == -1 && i < TIMER_COUNT && s.nvic.Eligible(TimerIrq(i))
    ensures Entries(s.pending, i) == 0
  {
    forall k | 0 <= k < |s.pending|
      ensures s.pending[k].handler != TimerMatch(i)
    {
      assert LeavesPending(s.pending[k], i);
    }
    NoEntries(s.pending, i);
  }

  /** Serving, seen by a timer that the handlers leave alone. */
  lemma SettleServesTimer(isr: Isr, s: Core, i: nat)
    requires i < TIMER_COUNT && Leaves(isr, s, i)
    ensures var s' := Settle(isr, s);
            && Leaves(isr, s', i) && SettledTimer(s, s', i)
            && s'.nvic.Eligible(TimerIrq(i)) == s.nvic.Eligible(TimerIrq(i))
  {
    hide Leaves, RaiseDue, RunAll, TimerServed, RaisedUpTo, SettledTimer;
    LeavesIsValid(isr, s, i);
    if AnyDue(s) {
      var r, s' := RaiseDue(s, TIMER_COUNT), Settle(isr, s);
      RaiseDueEffect(s, TIMER_COUNT);
      RaisingLeaves(isr, s, r, i);
      RunAllServesTimer(isr, r, i);
      if s'.nvic.Eligible(TimerIrq(i)) {
        NoMatchLeft(isr, s', i);
      }
      SettledBySteps(s, r, s', i);
    } else {
      NothingSettled(s, i);
    }
  }

  lemma RaisingLeaves(isr: Isr, s: Core, r: Core, i: nat)
    requires Leaves(isr, s, i) && RaisedUpTo(s, r, TIMER_COUNT)
    ensures Leaves(isr, r, i) && r.nvic == s.nvic
  {
    hide Entries;
    forall k | 0 <= k < |r.pending| ensures LeavesPending(r.pending[k], i) {
      if k < |s.pending| {
        assert LeavesPending(s.pending[k], i);
      } else {
        assert IsMatch(r.pending[k]);
      }
    }
  }

  lemma NothingSettled(s: Core, i: nat)
    requires s.Valid() && i < TIMER_COUNT && !AnyDue(s)
    ensures SettledTimer(s, s, i)
  {
    hide Entries, Ran;
  }

  /** What raising and then dispatching amounts to for one timer. */
  lemma SettledBySteps(s: Core, r: Core, s': Core, i: nat)
    requires s.Valid() && s'.Valid() && i < TIMER_COUNT && RaisedUpTo(s, r, TIMER_COUNT) && TimerServed(r, s', i)
    requires s.nvic.Eligible(TimerIrq(i)) ==> Entries(s'.pending, i) == 0
    ensures SettledTimer(s, s', i)
  {
    hide Entries, Ran;
  }

  ghost predicate Settled(isr: Isr, s: Core, s': Core) {
    && Calm(isr, s) && Calm(isr, s')
    && s'.nvic == s.nvic && SameClock(s, s')
    && s'.timers[3] == s.timers[3]
    && forall i | 0 <= i < TIMER_COUNT :: SettledTimer(s, s', i)
  }

  lemma SettleServes(isr: Isr, s: Core)
    requires Calm(isr, s)
    ensures Settled(isr, s, Settle(isr, s))
  {
    hide SettledTimer;
    if AnyDue(s) {
      RaiseDueEffect(s, TIMER_COUNT);
      RunAllKeeps(isr, RaiseDue(s, TIMER_COUNT));
    }
    SettleKeepsClock(isr, s);
    forall i | 0 <= i < TIMER_COUNT ensures SettledTimer(s, Settle(isr, s), i) {
      CalmLeaves(isr, s, i);
      SettleServesTimer(isr, s, i);
    }
  }

  /** What serving something makes of one timer: due again exactly when it is enabled, neither resets nor stops, and
      was called, for its own match or for one that was still pending. */
  lemma DueAgainExactlyWhen(isr: Isr, s: Core, i: nat)
    requires Calm(isr, s) && AnyDue(s) && i < TIMER_COUNT
    ensures Due(Settle(isr, s), i)
            <==> MatchEnabled(s, i) && Neither(s.timers[i]) && (Due(s, i) || Entries(s.pending, i) > 0)
  {
    hide Settle, AnyDue, Ran, Entries;
    SettleServes(isr, s);
    assert SettledTimer(s, Settle(isr, s), i);
  }

  /** A match that neither resets nor stops is due again as soon as it was served, at the same count. */
  lemma NeitherResetNorStopIsDueAgain(isr: Isr, s: Core, i: nat)
    requires Calm(isr, s) && AnyDue(s) && i < TIMER_COUNT
    requires MatchEnabled(s, i) && Neither(s.timers[i]) && (Due(s, i) || Entries(s.pending, i) > 0)
    ensures Due(Settle(isr, s), i) && Settle(isr, s).timers[i] == s.timers[i].(tc := s.timers[i].mr0)
  {
    hide Settle, AnyDue, Ran, Entries;
    SettleServes(isr, s);
    assert SettledTimer(s, Settle(isr, s), i);
  }

  /** Serving leaves nothing due exactly when no enabled timer that neither resets nor stops is due or has a match
      pending. */
  lemma NothingDueAfterExactlyWhen(isr: Isr, s: Core)
    requires Calm(isr, s) && AnyDue(s)
    ensures !AnyDue(Settle(isr, s))
            <==> forall i | 0 <= i < TIMER_COUNT && MatchEnabled(s, i) && Neither(s.timers[i]) ::
                   !Due(s, i) && Entries(s.pending, i) == 0
  {
    hide Settle, Calm, Entries;
    DueAgainExactlyWhen(isr, s, 0);
    DueAgainExactlyWhen(isr, s, 1);
    DueAgainExactlyWhen(isr, s, 2);
  }

  /** Under reset or stop, serving leaves nothing due, although matches reload their counters at zero elapsed
      cycles. */
  lemma NothingDueAfter(isr: Isr, s: Core)
    requires Calm(isr, s) && ResetOrStop(s)
    ensures !AnyDue(Settle(isr, s)) && ResetOrStop(Settle(isr, s))
  {
    var s' := Settle(isr, s);
    SettleServes(isr, s);
    forall i | 0 <= i < TIMER_COUNT
      ensures !Due(s', i)
      ensures MatchEnabled(s', i) ==> !Neither(s'.timers[i])
    {
      assert SettledTimer(s, s', i);
    }
  }

  /* ----- Jumping refines one-cycle stepping ----- */

  ghost predicate Ready(isr: Isr, s: Core): (ready: bool)
    ensures ready ==> s.Valid()
  {
    Calm(isr, s) && ResetOrStop(s)
  }

  /** Cycles until a timer's counter reaches its match. */
  function CyclesToMatch(t: Timer): nat {
    if t.tc >= t.mr0 then 0 else t.mr0 - t.tc
  }

  ghost predicate QuietFor(s: Core, cycles: nat)
    requires s.Valid()
  {
    forall i | 0 <= i < TIMER_COUNT && MatchEnabled(s, i) :: cycles <= CyclesToMatch(s.timers[i])
  }

  lemma TickKeepsEnabled(s: Core, cycles: nat)
    requires s.Valid()
    ensures forall i | 0 <= i < TIMER_COUNT :: MatchEnabled(Tick(s, cycles), i) == MatchEnabled(s, i)
  {
  }

  lemma TickKeepsReady(isr: Isr, s: Core, cycles: nat)
    requires Ready(isr, s)
    ensures Ready(isr, Tick(s, cycles))
  {
    TickKeepsEnabled(s, cycles);
  }

  lemma SettleKeepsReady(isr: Isr, s: Core)
    requires Ready(isr, s)
    ensures Ready(isr, Settle(isr, s)) && !AnyDue(Settle(isr, s))
  {
    SettleServes(isr, s);
    NothingDueAfter(isr, s);
  }

  lemma CycleKeepsReady(isr: Isr, s: Core)
    requires Ready(isr, s)
    ensures Ready(isr, Cycle(isr, s)) && !AnyDue(Cycle(isr, s)) && Cycle(isr, s).nvic == s.nvic
  {
    SettleKeepsReady(isr, s);
    SettleServes(isr, s);
    TickKeepsReady(isr, Settle(isr, s), 1);
    SettleKeepsReady(isr, Tick(Settle(isr, s), 1));
    SettleServes(isr, Tick(Settle(isr, s), 1));
  }

  lemma CountedTwice(t: Timer, a: nat, b: nat)
    ensures Counted(Counted(t, a), b) == Counted(t, a + b)
  {
    WrappedSum(t.tc, a, b, WORD_RANGE);
  }

  lemma ClockTwice(us: nat, remainder: nat, a: nat, b: nat, hz: nat)
    requires hz > 0
    ensures var once := ClockAfter(us, remainder, a, hz);
            ClockAfter(once.0, once.1, b, hz) == ClockAfter(us, remainder, a + b, hz)
  {
    hide Quot, Rem;
    var e := remainder + MicroCycles(a);
    CarriedDivision(remainder, MicroCycles(a), MicroCycles(b), hz);
    WrappedSum(us, Quot(e, hz), Quot(Rem(e, hz) + MicroCycles(b), hz), CLOCK_RANGE);
  }

  lemma TickTwice(s: Core, a: nat, b: nat)
    requires s.Valid()
    ensures Tick(Tick(s, a), b) == Tick(s, a + b)
  {
    if a > 0 && b > 0 {
      ClockTwice(s.clockUs, s.remainder, a, b, PclkHz(s.coreClock));
      CountedTwice(s.timers[0], a, b);
      CountedTwice(s.timers[1], a, b);
      CountedTwice(s.timers[2], a, b);
    }
  }

  lemma SettleWhenNothingDue(isr: Isr, s: Core)
    requires s.Valid() && !AnyDue(s)
    ensures Settle(isr, s) == s
  {
  }

  /** As long as no enabled counter can pass its match, each comes nearer by the cycles that pass. */
  lemma QuietTick(s: Core, n: nat)
    requires s.Valid() && QuietFor(s, n)
    ensures forall i | 0 <= i < TIMER_COUNT && MatchEnabled(s, i) ::
              CyclesToMatch(Tick(s, n).timers[i]) == CyclesToMatch(s.timers[i]) - n
  {
    forall i | 0 <= i < TIMER_COUNT && MatchEnabled(s, i)
      ensures CyclesToMatch(Tick(s, n).timers[i]) == CyclesToMatch(s.timers[i]) - n
    {
      if n > 0 {
        assert Tick(s, n).timers[i] == Counted(s.timers[i], n);
        DivisionIsUnique(s.timers[i].tc + n, WORD_RANGE, 0, s.timers[i].tc + n);
      }
    }
  }

  lemma DueIsAtZero(s: Core, i: nat)
    requires s.Valid() && i < TIMER_COUNT
    ensures Due(s, i) <==> MatchEnabled(s, i) && CyclesToMatch(s.timers[i]) == 0
  {
  }

  lemma NothingDueYet(s: Core, n: nat)
    requires s.Valid()
    requires forall i | 0 <= i < TIMER_COUNT && MatchEnabled(s, i) :: n < CyclesToMatch(s.timers[i])
    ensures !AnyDue(Tick(s, n))
  {
    QuietTick(s, n);
    TickKeepsEnabled(s, n);
    DueIsAtZero(Tick(s, n), 0);
    DueIsAtZero(Tick(s, n), 1);
    DueIsAtZero(Tick(s, n), 2);
  }

  /** While no enabled counter can pass its match, n single cycles are one jump of n cycles, whatever the handlers
      do. */
  lemma {:induction false} SteppedQuiet(isr: Isr, s: Core, n: nat)
    requires s.Valid() && n > 0 && QuietFor(s, n)
    ensures Stepped(isr, s, n) == Settle(isr, Tick(s, n))
    decreases n
  {
    hide Settle, Tick, RunAll, RaiseDue, MatchEnabled, CyclesToMatch, AnyDue;
    NothingDueYet(s, n - 1);
    SettleWhenNothingDue(isr, Tick(s, n - 1));
    TickTwice(s, n - 1, 1);
    if n > 1 {
      SteppedQuiet(isr, s, n - 1);
    } else {
      NoTick(s);
      SteppedOnce(isr, s);
    }
  }

  lemma NoTick(s: Core)
    requires s.Valid()
    ensures Tick(s, 0) == s
  {
  }

  /** Stepping n cycles is stepping a cycles and then the rest. */
  lemma {:induction false} SteppedSum(isr: Isr, s: Core, a: nat, b: nat)
    requires s.Valid()
    ensures Stepped(isr, Stepped(isr, s, a), b) == Stepped(isr, s, a + b)
    decreases b
  {
    hide Cycle;
    if b > 0 {
      SteppedSum(isr, s, a, b - 1);
    }
  }

  /** Serving what is due before the first cycle changes nothing, provided that it leaves nothing due: the first cycle
      does it anyway. */
  lemma SteppedFromSettled(isr: Isr, s: Core, n: nat)
    requires s.Valid() && n > 0 && !AnyDue(Settle(isr, s))
    ensures Stepped(isr, Settle(isr, s), n) == Stepped(isr, s, n)
  {
    hide AnyDue, Settle, Tick;
    var s1 := Settle(isr, s);
    SettleWhenNothingDue(isr, s1);
    assert Cycle(isr, s1) == Cycle(isr, s);
    SteppedOnce(isr, s);
    SteppedOnce(isr, s1);
    SteppedSum(isr, s, 1, n - 1);
    SteppedSum(isr, s1, 1, n - 1);
  }

  lemma SteppedOnce(isr: Isr, s: Core)
    requires s.Valid()
    ensures Stepped(isr, s, 1) == Cycle(isr, s)
  {
    assert Stepped(isr, s, 0) == s;
  }

  lemma {:induction false} SteppedKeepsReady(isr: Isr, s: Core, n: nat)
    requires Ready(isr, s)
    ensures Ready(isr, Stepped(isr, s, n)) && (n > 0 ==> !AnyDue(Stepped(isr, s, n)))
    ensures Stepped(isr, s, n).nvic == s.nvic
    decreases n
  {
    hide Cycle, AnyDue;
    if n > 0 {
      SteppedKeepsReady(isr, s, n - 1);
      CycleKeepsReady(isr, Stepped(isr, s, n - 1));
    }
  }

  /* ----- The clock ----- */

  ghost predicate SameClock(s: Core, s': Core) {
    s'.clockUs == s.clockUs && s'.remainder == s.remainder && s'.coreClock == s.coreClock
  }

  lemma {:induction false} RunActionKeepsClock(isr: Isr, a: Action, s: Core)
    requires s.Valid()
    ensures SameClock(s, RunAction(isr, a, s))
    decreases TimerEntries(s.pending), PendingWeight(s.pending) + ActionWeight(a), 0
  {
    match a {
      case DispatchNext => DispatchNextKeepsClock(isr, s);
      case DispatchAll => RunAllKeepsClock(isr, s);
      case _ =>
    }
  }

  lemma {:induction false} RunBodyKeepsClock(isr: Isr, body: seq<Action>, s: Core)
    requires s.Valid()
    ensures SameClock(s, RunBody(isr, body, s))
    decreases TimerEntries(s.pending), PendingWeight(s.pending) + BodyWeight(body), 1
  {
    if body != [] {
      RunActionKeepsClock(isr, body[0], s);
      RunBodyKeepsClock(isr, body[1..], RunAction(isr, body[0], s));
    }
  }

  lemma {:induction false} DispatchNextKeepsClock(isr: Isr, s: Core)
    requires s.Valid()
    ensures SameClock(s, TryDispatchNext(isr, s))
    decreases TimerEntries(s.pending), PendingWeight(s.pending), 3
  {
    var k := Best(s);
    if k != -1 {
      WeightsWithout(s.pending, k);
      var s1 := Taken(s, k);
      match s.pending[k].handler {
        case Device(_, body) => RunBodyKeepsClock(isr, body, s1);
        case TimerMatch(i) => RunBodyKeepsClock(isr, isr(i, AtMatch(s1, i)), AtMatch(s1, i));
      }
    }
  }

  lemma {:induction false} RunAllKeepsClock(isr: Isr, s: Core)
    requires s.Valid()
    ensures SameClock(s, RunAll(isr, s))
    decreases TimerEntries(s.pending), PendingWeight(s.pending), 4
  {
    if Best(s) != -1 {
      DispatchNextKeepsClock(isr, s);
      RunAllKeepsClock(isr, TryDispatchNext(isr, s));
    }
  }

  lemma {:induction false} RaiseDueKeepsClock(s: Core, n: nat)
    requires s.Valid() && n <= TIMER_COUNT
    ensures SameClock(s, RaiseDue(s, n))
  {
    if n > 0 { RaiseDueKeepsClock(s, n - 1); }
  }

  lemma SettleKeepsClock(isr: Isr, s: Core)
    requires s.Valid()
    ensures SameClock(s, Settle(isr, s))
  {
    hide RaiseDue;
    RaiseDueKeepsClock(s, TIMER_COUNT);
    RunAllKeepsClock(isr, RaiseDue(s, TIMER_COUNT));
  }

  lemma CycleClock(isr: Isr, s: Core)
    requires s.Valid()
    ensures var s' := Cycle(isr, s);
            && s'.coreClock == s.coreClock
            && (s'.clockUs, s'.remainder) == ClockAfter(s.clockUs, s.remainder, 1, PclkHz(s.coreClock))
  {
    hide Settle;
    SettleKeepsClock(isr, s);
    SettleKeepsClock(isr, Tick(Settle(isr, s), 1));
  }

  /** Whatever the handlers do, the clock of n cycles is one conversion of n cycles. */
  lemma {:induction false} SteppedClock(isr: Isr, s: Core, n: nat)
    requires s.Valid()
    ensures var s' := Stepped(isr, s, n);
            && s'.coreClock == s.coreClock
            && (n > 0 ==> (s'.clockUs, s'.remainder) == ClockAfter(s.clockUs, s.remainder, n, PclkHz(s.coreClock)))
            && (n == 0 ==> s' == s)
    decreases n
  {
    hide Cycle, AnyDue;
    if n > 0 {
      var s1 := Stepped(isr, s, n - 1);
      SteppedClock(isr, s, n - 1);
      CycleClock(isr, s1);
      if n > 1 {
        ClockTwice(s.clockUs, s.remainder, n - 1, 1, PclkHz(s.coreClock));
      }
    }
  }

  /** The 64-bit product of one advance never overflows, whatever the core clock was set to before. */
  lemma ElapsedFitsIn64Bits(remainder: nat, cycles: Word, coreClock: Word)
    requires remainder < 0x4000_0000
    ensures remainder + cycles * 1_000_000 < CLOCK_RANGE
    ensures ClockAfter(0, remainder, cycles, PclkHz(coreClock)).1 < 0x4000_0000
  {
  }

  /* ----- What the timers do over any number of cycles ----- */

  /** Between two matches no enabled counter passes its match register, neither in a jump nor in a cycle. */
  lemma NeverOvershoots(s: Core, cycles: nat, i: nat)
    requires s.Valid() && i < TIMER_COUNT && MatchEnabled(s, i) && QuietFor(s, cycles)
    requires s.timers[i].tc <= s.timers[i].mr0
    ensures var t := Tick(s, cycles).timers[i]; t.tc == s.timers[i].tc + cycles <= t.mr0 == s.timers[i].mr0
    ensures cycles > 0 ==> !Due(s, i) && (Due(Tick(s, cycles), i) <==> cycles == CyclesToMatch(s.timers[i]))
  {
    hide Tick;
    TimerTicks(s, cycles, i);
    DivisionIsUnique(s.timers[i].tc + cycles, WORD_RANGE, 0, s.timers[i].tc + cycles);
    TickKeepsEnabled(s, cycles);
  }

  lemma TimerTicks(s: Core, cycles: nat, i: nat)
    requires s.Valid() && i < TIMER_COUNT
    ensures Tick(s, cycles).timers[i] == if cycles == 0 then s.timers[i] else Counted(s.timers[i], cycles)
  {
  }

  /** A free-running match timer: reset on match, below its match, none of its matches still pending. */
  ghost predicate Periodic(s: Core, i: nat)
    requires s.Valid() && i < TIMER_COUNT
  {
    var t := s.timers[i];
    MatchEnabled(s, i) && t.resetOnMatch && !t.stopOnMatch && t.tc < t.mr0 && Entries(s.pending, i) == 0
  }

  lemma TickLeaves(isr: Isr, s: Core, cycles: nat, i: nat)
    requires Leaves(isr, s, i)
    ensures Leaves(isr, Tick(s, cycles), i)
    ensures Tick(s, cycles).pending == s.pending && Tick(s, cycles).log == s.log && Tick(s, cycles).nvic == s.nvic
  {
  }

  /** One cycle seen by a timer that the handlers leave alone, whatever they do to the others: served if it reaches its
      match, otherwise only counted. */
  lemma TimerCycle(isr: Isr, s: Core, i: nat)
    requires i < TIMER_COUNT && Leaves(isr, s, i) && Entries(s.pending, i) == 0 && !Due(s, i)
    ensures var s', t := Cycle(isr, s), Counted(s.timers[i], 1);
            var hit := MatchEnabled(s, i) && t.tc >= t.mr0;
            && Leaves(isr, s', i) && Entries(s'.pending, i) == 0
            && s'.nvic.Eligible(TimerIrq(i)) == s.nvic.Eligible(TimerIrq(i))
            && Ran(s'.log, i) == Ran(s.log, i) + (if hit then 1 else 0)
            && s'.timers[i] == if hit then t.(tc := if t.resetOnMatch then 0 else t.mr0,
                                              running := t.running && !t.stopOnMatch)
                               else t
  {
    hide Settle, Tick, AnyDue, Ran, Entries, Leaves;
    LeavesIsValid(isr, s, i);
    var s1 := Settle(isr, s);
    var s2 := Tick(s1, 1);
    SettleServesTimer(isr, s, i);
    TickLeaves(isr, s1, 1, i);
    TimerTicks(s1, 1, i);
    SettleServesTimer(isr, s2, i);
  }

  /** Advancing n cycles calls the handler of a free-running timer exactly floor((TC + n) / MR0) times and leaves
      TC = (TC + n) mod MR0, whatever the handlers do to the other timers and interrupts meanwhile. */
  lemma {:induction false} PeriodicCalls(isr: Isr, s: Core, i: nat, n: nat)
    requires i < TIMER_COUNT && Leaves(isr, s, i) && Periodic(s, i)
    ensures var s', t := Stepped(isr, s, n), s.timers[i];
            && Leaves(isr, s', i) && Periodic(s', i)
            && Ran(s'.log, i) == Ran(s.log, i) + Quot(t.tc + n, t.mr0)
            && s'.timers[i] == t.(tc := Rem(t.tc + n, t.mr0))
    decreases n
  {
    hide Cycle, Ran, Entries, Leaves, Quot, Rem;
    LeavesIsValid(isr, s, i);
    var t := s.timers[i];
    if n == 0 {
      DivisionIsUnique(t.tc, t.mr0, 0, t.tc);
    } else {
      PeriodicCalls(isr, s, i, n - 1);
      var tc := Stepped(isr, s, n - 1).timers[i].tc;
      DivisionIsUnique(tc + 1, WORD_RANGE, 0, tc + 1);
      TimerCycle(isr, Stepped(isr, s, n - 1), i);
      NextQuotient(t.tc + n - 1, t.mr0);
    }
  }

  /** A timer that stops on match calls its handler once, at its match, and never again. */
  ghost predicate OneShot(s: Core, i: nat)
    requires s.Valid() && i < TIMER_COUNT
  {
    var t := s.timers[i];
    MatchEnabled(s, i) && t.stopOnMatch && t.tc < t.mr0 && Entries(s.pending, i) == 0
  }

  lemma {:induction false} OneShotCalls(isr: Isr, s: Core, i: nat, n: nat)
    requires i < TIMER_COUNT && Leaves(isr, s, i) && OneShot(s, i)
    ensures var s', t := Stepped(isr, s, n), s.timers[i];
            var fired := t.tc + n >= t.mr0;
            && Leaves(isr, s', i) && Entries(s'.pending, i) == 0
            && Ran(s'.log, i) == Ran(s.log, i) + (if fired then 1 else 0)
            && s'.timers[i] == (if fired then t.(running := false, tc := if t.resetOnMatch then 0 else t.mr0)
                                else t.(tc := t.tc + n))
            && s'.nvic.Eligible(TimerIrq(i))
    decreases n
  {
    hide Cycle, Ran, Entries, Leaves;
    LeavesIsValid(isr, s, i);
    if n > 0 {
      OneShotCalls(isr, s, i, n - 1);
      TimerCycle(isr, Stepped(isr, s, n - 1), i);
    }
  }

  /* ----- In the terms of the registers ----- */

  /** The match interrupt of timer i can be raised: its number is i + 1, its slot in the controller i + 17. */
  lemma MatchEnabledExactlyWhen(s: Core, i: nat)
    requires s.Valid() && i < 3
    ensures MatchEnabled(s, i)
            <==> s.nvic.globalEnabled && s.nvic.enabledIrqs[i + 17]
                 && s.timers[i].running && s.timers[i].interruptOnMatch && s.timers[i].mr0 != 0
  {
  }

  /** The timers below n whose counters stand at their matches or past them, with their interrupts on, in order. */
  ghost function AtTheirMatches(s: Core, n: nat): (due: seq<nat>)
    requires s.Valid() && n <= 3
    ensures forall k | 0 <= k < |due| :: due[k] < n
  {
    if n == 0 then []
    else
      var t := s.timers[n - 1];
      AtTheirMatches(s, n - 1) +
      (if s.nvic.globalEnabled && s.nvic.enabledIrqs[n + 16] && t.running && t.interruptOnMatch && t.mr0 != 0
          && t.tc >= t.mr0 then [n - 1] else [])
  }

  /** The entries their matches are raised as. */
  ghost function MatchEntries(due: seq<nat>, sequence: nat): (entries: seq<Pending>)
    ensures |entries| == |due|
    ensures forall k | 0 <= k < |due| :: entries[k] == Pending(due[k] + 1, sequence + k, TimerMatch(due[k]))
  {
    seq(|due|, k requires 0 <= k < |due| => Pending(due[k] + 1, sequence + k, TimerMatch(due[k])))
  }

  /** The due matches have been raised in that order, and the counters raised for stand at their matches. */
  ghost predicate RaisedFor(s: Core, s': Core, due: seq<nat>)
    requires s.Valid()
  {
    && |s'.timers| == 4 && s'.nvic == s.nvic
    && s'.pending == s.pending + MatchEntries(due, s.nextSequence)
    && s'.nextSequence == s.nextSequence + |due|
    && forall i | 0 <= i < 4 :: s'.timers[i] == if i in due then s.timers[i].(tc := s.timers[i].mr0) else s.timers[i]
  }

  /** Matches are raised timer by timer, each behind all others. */
  lemma {:induction false} MatchesAreRaisedInOrder(s: Core, n: nat)
    requires s.Valid() && n <= 3
    ensures RaisedFor(s, RaiseDue(s, n), AtTheirMatches(s, n))
  {
    hide RaisedFor, RaiseIfDue, AtTheirMatches;
    if n > 0 {
      MatchesAreRaisedInOrder(s, n - 1);
      RaisedForOneMore(s, RaiseDue(s, n - 1), n - 1);
    } else {
      NothingRaised(s);
    }
  }

  lemma NothingRaised(s: Core)
    requires s.Valid()
    ensures RaisedFor(s, s, AtTheirMatches(s, 0))
  {
  }

  lemma RaisedForOneMore(s: Core, r: Core, n: nat)
    requires s.Valid() && r.Valid() && n < 3 && RaisedFor(s, r, AtTheirMatches(s, n))
    ensures RaisedFor(s, RaiseIfDue(r, n), AtTheirMatches(s, n + 1))
  {
    hide AtTheirMatches;
    var before := AtTheirMatches(s, n);
    assert n !in before && r.timers[n] == s.timers[n];
    MatchEnabledExactlyWhen(r, n);
    OneMoreAtMatch(s, n);
    if Due(r, n) {
      MoreEntries(before, n, s.nextSequence);
      assert s.pending + MatchEntries(before, s.nextSequence) + [Pending(n + 1, r.nextSequence, TimerMatch(n))]
             == s.pending + MatchEntries(before + [n], s.nextSequence);
    }
  }

  lemma OneMoreAtMatch(s: Core, n: nat)
    requires s.Valid() && n < 3
    ensures AtTheirMatches(s, n + 1)
            == AtTheirMatches(s, n) +
               (if s.nvic.globalEnabled && s.nvic.enabledIrqs[n + 17] && s.timers[n].running
                   && s.timers[n].interruptOnMatch && s.timers[n].mr0 != 0 && s.timers[n].tc >= s.timers[n].mr0 then [n]
                else [])
  {
  }

  lemma MoreEntries(due: seq<nat>, n: nat, sequence: nat)
    ensures MatchEntries(due + [n], sequence)
            == MatchEntries(due, sequence) + [Pending(n + 1, sequence + |due|, TimerMatch(n))]
  {
  }

  /** Cycles that pass: the three scheduled timers count modulo 2^32 while they run, the fourth does not, and the clock
      takes over a microsecond for each coreClock / 4 of a million units per cycle, carrying the rest. */
  lemma TimePasses(s: Core, cycles: nat)
    requires s.Valid() && cycles > 0
    ensures var s', hz := Tick(s, cycles), if s.coreClock < 4 then 1 else s.coreClock / 4;
            && s' == s.(timers := s'.timers, clockUs := s'.clockUs, remainder := s'.remainder)
            && (forall i | 0 <= i < 3 ::
                  s'.timers[i] == if s.timers[i].running
                                  then s.timers[i].(tc := (s.timers[i].tc + cycles) % 0x1_0000_0000)
                                  else s.timers[i])
            && s'.timers[3] == s.timers[3]
            && s'.clockUs == (s.clockUs + (s.remainder + cycles * 1_000_000) / hz) % 0x1_0000_0000_0000_0000
            && s'.remainder == (s.remainder + cycles * 1_000_000) % hz
  {
  }
}
