/** The running machine: the interrupt queue, the match timers, the NVIC and the virtual clock, updated in place by
    the dispatcher and the timer scheduler. Every method is proved against the functions of Interrupts, Timers and
    Advancing. */
module Scheduler {
  import opened Advancing
  import opened Arithmetic
  import opened Interrupts
  import opened Options
  import opened Timers

  class Machine {
    const timers: array<Timer>
    const isr: Isr
    var nvic: Nvic
    var pending: seq<Pending>
    var nextSequence: nat
    var clockUs: nat
    var remainder: nat
    var coreClock: Word
    /** What ran so far. */
    var log: seq<Call>

    ghost predicate Valid()
      reads this, timers
    {
      timers.Length == 4 && Snapshot().Valid()
    }

    function Snapshot(): Core
      reads this, timers
    {
      Core(timers[..], nvic, pending, nextSequence, clockUs, remainder, coreClock, log)
    }

    constructor (isr: Isr)
      ensures Valid() && fresh(timers) && this.isr == isr
      ensures pending == [] && log == [] && nextSequence == 0
      ensures clockUs == 0 && remainder == 0 && coreClock == 100_000_000
      ensures nvic.globalEnabled && |nvic.enabledIrqs| == |nvic.priorities| == 64
      ensures forall slot | 0 <= slot < 64 :: !nvic.enabledIrqs[slot] && nvic.priorities[slot] == 0
      ensures timers.Length == 4
      ensures forall i | 0 <= i < 4 :: timers[i] == Timer(0, 0, false, false, false, false)
      ensures Ledger(Snapshot(), [])
    {
      timers := new Timer[4](_ => Timer(0, 0, false, false, false, false));
      this.isr := isr;
      nvic := Nvic(seq(IRQ_SLOTS, _ => false), seq(IRQ_SLOTS, _ => 0), true);
      pending, nextSequence, log := [], 0, [];
      clockUs, remainder, coreClock := 0, 0, 100_000_000;
    }

    /* ----- The interrupt controller ----- */

    method RaiseInterrupt(irq: int, handler: Handler)
      requires Valid() && (handler.TimerMatch? ==> handler.timer < TIMER_COUNT)
      modifies this`pending, this`nextSequence
      ensures Valid() && Snapshot() == Push(old(Snapshot()), irq, handler)
    {
      pending := pending + [Pending(irq, nextSequence, handler)];
      nextSequence := nextSequence + 1;
    }

    method HighestPriorityPending() returns (selected: int)
      requires Valid()
      ensures selected == Best(Snapshot())
      ensures selected == -1 <==> forall j | 0 <= j < |pending| :: !MayRun(nvic, pending[j].irq)
      ensures selected >= 0 ==>
                && MayRun(nvic, pending[selected].irq)
                && forall j | 0 <= j < |pending| && MayRun(nvic, pending[j].irq) ::
                     var slot, other := pending[selected].irq + 16, pending[j].irq + 16;
                     nvic.priorities[slot] < nvic.priorities[other]
                     || (nvic.priorities[slot] == nvic.priorities[other]
                         && pending[selected].sequence <= pending[j].sequence)
    {
      selected := -1;
      var it := 0;
      while it < |pending|
        invariant 0 <= it <= |pending|
        invariant selected == Select(nvic, pending, it)
      {
        if nvic.Eligible(pending[it].irq) {
          if selected == -1 {
            selected := it;
          } else {
            var lhs, rhs := nvic.Priority(pending[it].irq), nvic.Priority(pending[selected].irq);
            if lhs < rhs || (lhs == rhs && pending[it].sequence < pending[selected].sequence) {
              selected := it;
            }
          }
        }
        it := it + 1;
      }
    }

    /** One step of a device handler's run. */
    method PerformAction(action: Action)
      requires Valid()
      modifies this, timers
      ensures Valid() && Snapshot() == RunAction(isr, action, old(Snapshot()))
      decreases TimerEntries(pending), PendingWeight(pending) + ActionWeight(action), 0
    {
      match action {
        case Raise(irq, id, body) => RaiseInterrupt(irq, Device(id, body));
        case DispatchNext => var _ := DispatchNext();
        case DispatchAll => DispatchAll();
        case SetEnabled(irq, on) => nvic := nvic.WithEnabled(irq, on);
        case SetPriority(irq, level) => nvic := nvic.WithPriority(irq, level);
        case SetGlobal(on) => nvic := nvic.(globalEnabled := on);
        case StoreTimer(i, stores) => StoreToTimer(i, stores);
      }
    }

    /** The stores of a handler to the registers of one timer, one after the other. */
    method StoreToTimer(i: nat, stores: seq<Store>)
      requires Valid()
      modifies timers
      ensures Valid() && Snapshot() == old(Snapshot()).(timers := WithStores(old(timers[..]), i, stores))
    {
      if i >= timers.Length {
        return;
      }
      var n := 0;
      while n < |stores|
        invariant 0 <= n <= |stores|
        invariant timers[..] == old(timers[..])[i := timers[i]]
        invariant StoredAll(timers[i], stores[n..]) == StoredAll(old(timers[i]), stores)
      {
        match stores[n] {
          case Control(enable, reset) =>
            timers[i] := timers[i].(running := enable);
            if reset {
              timers[i] := timers[i].(tc := 0);
            }
          case MatchControl(interrupt, reset, stop) =>
            timers[i] := timers[i].(interruptOnMatch := interrupt, resetOnMatch := reset, stopOnMatch := stop);
          case Match(value) => timers[i] := timers[i].(mr0 := value);
          case Count(value) => timers[i] := timers[i].(tc := value);
        }
        n := n + 1;
      }
    }

    method PerformBody(body: seq<Action>)
      requires Valid()
      modifies this, timers
      ensures Valid() && Snapshot() == RunBody(isr, body, old(Snapshot()))
      decreases TimerEntries(pending), PendingWeight(pending) + BodyWeight(body), 1
    {
      if body != [] {
        PerformAction(body[0]);
        PerformBody(body[1..]);
      }
    }

    method CallHandler(handler: Handler)
      requires Valid() && (handler.TimerMatch? ==> handler.timer < TIMER_COUNT)
      modifies this, timers
      ensures Valid() && Snapshot() == RunHandler(isr, handler, old(Snapshot()))
      decreases TimerEntries(pending) + (if handler.TimerMatch? then 1 else 0),
                PendingWeight(pending) + (if handler.Device? then BodyWeight(handler.body) else 0), 2
    {
      match handler {
        case Device(_, body) => PerformBody(body);
        case TimerMatch(i) =>
          timers[i] := timers[i].(tc := timers[i].mr0);
          assert Snapshot() == AtMatch(old(Snapshot()), i);
          PerformBody(isr(i, Snapshot()));
          ghost var served := Snapshot();
          if timers[i].resetOnMatch {
            timers[i] := timers[i].(tc := 0);
          }
          if timers[i].stopOnMatch {
            timers[i] := timers[i].(running := false);
          }
          assert Snapshot() == AfterMatch(served, i);
      }
    }

    method DispatchNext() returns (ok: bool)
      requires Valid()
      modifies this, timers
      ensures Valid() && Snapshot() == TryDispatchNext(isr, old(Snapshot()))
      ensures ok <==> Best(old(Snapshot())) != -1
      decreases TimerEntries(pending), PendingWeight(pending), 3
    {
      var selected := HighestPriorityPending();
      if selected == -1 {
        return false;
      }
      WeightsWithout(pending, selected);
      var entry := pending[selected];
      pending := Without(pending, selected);
      log := log + [Call(entry.sequence, entry.handler, clockUs)];
      assert Snapshot() == Taken(old(Snapshot()), selected);
      CallHandler(entry.handler);
      return true;
    }

    method DispatchAll()
      requires Valid()
      modifies this, timers
      ensures Valid() && Snapshot() == RunAll(isr, old(Snapshot()))
      decreases TimerEntries(pending), PendingWeight(pending), 4
    {
      var more := DispatchNext();
      while more
        invariant Valid() && Shrunk(old(pending), 0, pending)
        invariant more ==> Shrunk(old(pending), -1, pending)
        invariant RunAll(isr, old(Snapshot())) == RunAll(isr, Snapshot())
        invariant !more ==> Best(Snapshot()) == -1
        decreases more, TimerEntries(pending), PendingWeight(pending)
      {
        more := DispatchNext();
      }
    }

    /* ----- The timer scheduler ----- */

    predicate MatchInterruptEnabled(timerIndex: nat): (enabled: bool)
      requires Valid()
      reads this, timers
      ensures enabled <==> timerIndex < TIMER_COUNT && MatchEnabled(Snapshot(), timerIndex)
      ensures enabled <==>
                && timerIndex < 3 && nvic.globalEnabled && nvic.enabledIrqs[timerIndex + 17]
                && timers[timerIndex].running && timers[timerIndex].interruptOnMatch && timers[timerIndex].mr0 != 0
    {
      && timerIndex < TIMER_COUNT
      && nvic.Eligible(TimerIrq(timerIndex))
      && timers[timerIndex].running && timers[timerIndex].interruptOnMatch && timers[timerIndex].mr0 != 0
    }

    /** The distance to the nearest enabled match; zero when one is due. */
    method CyclesToNextMatch() returns (next: Option<nat>)
      requires Valid()
      ensures next == NextMatch(Snapshot()) && (next.Some? ==> next.value < WORD_RANGE)
      ensures next == None <==> forall i | 0 <= i < TIMER_COUNT :: !MatchEnabled(Snapshot(), i)
      ensures next.Some? ==> QuietFor(Snapshot(), next.value)
      ensures next.Some? ==>
                exists i | 0 <= i < TIMER_COUNT :: MatchEnabled(Snapshot(), i) && CyclesToMatch(timers[i]) == next.value
    {
      hide MatchEnabled;
      next := None;
      var i := 0;
      while i < TIMER_COUNT
        invariant 0 <= i <= TIMER_COUNT
        invariant next == Nearest(Snapshot(), i) && (next.Some? ==> next.value < WORD_RANGE)
      {
        if MatchInterruptEnabled(i) {
          var cycles := if timers[i].tc >= timers[i].mr0 then 0 else timers[i].mr0 - timers[i].tc;
          if next == None || cycles < next.value {
            next := Some(cycles);
          }
        }
        i := i + 1;
      }
      assert forall j | 0 <= j < TIMER_COUNT :: Snapshot().timers[j] == timers[j];
    }

    method AdvanceRunningTimers(cycles: nat)
      requires Valid()
      modifies this`clockUs, this`remainder, timers
      ensures Valid() && Snapshot() == Tick(old(Snapshot()), cycles)
    {
      if cycles == 0 {
        return;
      }
      var hz := PclkHz(coreClock);
      var elapsed := remainder + MicroCycles(cycles);
      clockUs := Rem(clockUs + Quot(elapsed, hz), CLOCK_RANGE);
      remainder := Rem(elapsed, hz);
      var i := 0;
      while i < TIMER_COUNT
        invariant 0 <= i <= TIMER_COUNT
        invariant (clockUs, remainder) == ClockAfter(old(clockUs), old(remainder), cycles, hz)
        invariant forall j | 0 <= j < 4 ::
                    timers[j] == if j < i then Counted(old(timers[j]), cycles) else old(timers[j])
      {
        if timers[i].running {
          timers[i] := timers[i].(tc := Rem(timers[i].tc + cycles, WORD_RANGE));
        }
        i := i + 1;
      }
      assert Snapshot().timers == Tick(old(Snapshot()), cycles).timers;
    }

    method RaiseMatch(timerIndex: nat) returns (ok: bool)
      requires Valid() && timerIndex < TIMER_COUNT
      modifies this`pending, this`nextSequence, timers
      ensures Valid() && (ok <==> MatchEnabled(old(Snapshot()), timerIndex))
      ensures Snapshot() == if ok then Push(AtMatch(old(Snapshot()), timerIndex), TimerIrq(timerIndex),
                                            TimerMatch(timerIndex))
                            else old(Snapshot())
    {
      if !MatchInterruptEnabled(timerIndex) {
        return false;
      }
      timers[timerIndex] := timers[timerIndex].(tc := timers[timerIndex].mr0);
      assert Snapshot() == AtMatch(old(Snapshot()), timerIndex);
      RaiseInterrupt(TimerIrq(timerIndex), TimerMatch(timerIndex));
      return true;
    }

    method RaiseDueMatches() returns (raised: bool)
      requires Valid()
      modifies this`pending, this`nextSequence, timers
      ensures Valid() && Snapshot() == RaiseDue(old(Snapshot()), TIMER_COUNT)
      ensures raised <==> AnyDue(old(Snapshot()))
    {
      hide MatchEnabled, MatchInterruptEnabled, Push, AtMatch;
      raised := false;
      var i := 0;
      while i < TIMER_COUNT
        invariant 0 <= i <= TIMER_COUNT && Valid()
        invariant Snapshot() == RaiseDue(old(Snapshot()), i)
        invariant forall j | i <= j < TIMER_COUNT :: Due(Snapshot(), j) == Due(old(Snapshot()), j)
        invariant raised <==> exists j | 0 <= j < i :: Due(old(Snapshot()), j)
      {
        ghost var s := Snapshot();
        assert Due(s, i) == Due(old(Snapshot()), i);
        if MatchInterruptEnabled(i) && timers[i].tc >= timers[i].mr0 {
          var ok := RaiseMatch(i);
          raised := ok || raised;
        }
        assert Snapshot() == RaiseIfDue(s, i);
        RaiseLeavesOthers(s, i);
        i := i + 1;
      }
    }

    /** Jumps from match to match, serving matches at zero elapsed cycles where necessary. The requirement is that the
        loop ends at all; good advances do, and then the machine is where stepping one cycle at a time would take it. */
    method AdvanceCycles(cycles: Word)
      requires Valid() && Ends(isr, Snapshot(), cycles)
      modifies this, timers
      ensures Valid() && Snapshot() == Advanced(isr, old(Snapshot()), cycles)
      ensures Good(isr, old(Snapshot()), cycles) ==> Snapshot() == Stepped(isr, old(Snapshot()), cycles)
      ensures forall rest: nat :: Good(isr, old(Snapshot()), cycles + rest) ==> Good(isr, Snapshot(), rest)
      ensures forall rest: nat :: Ends(isr, old(Snapshot()), cycles + rest) ==>
                Ends(isr, Snapshot(), rest)
                && Advanced(isr, Snapshot(), rest) == Advanced(isr, old(Snapshot()), cycles + rest)
      ensures Ready(isr, old(Snapshot())) ==> Ready(isr, Snapshot())
    {
      hide Good, Ready, Ends, Advanced, Turns, Stepped, Settle, AnyDue, Tick, RaiseDue, RunAll, QuietFor;
      ghost var start := Snapshot();
      ghost var k := EndsAfter(isr, start, cycles);
      var remaining: nat := cycles;
      AdvancedIs(isr, start, cycles, k);
      EndOfAdvance(isr, start, cycles);
      while remaining > 0
        invariant Valid() && remaining <= cycles
        invariant Turns(isr, Snapshot(), remaining, k) == (Advanced(isr, start, cycles), 0)
        decreases k
      {
        ghost var s := Snapshot();
        TurnsUnfold(isr, s, remaining, k);
        k := k - 1;
        var next := CyclesToNextMatch();
        assert Snapshot() == s;
        if next == None {
          AdvanceRunningTimers(remaining);
          NoTurns(isr, Snapshot(), k);
          return;
        }
        if next.value > remaining {
          AdvanceRunningTimers(remaining);
          NoTurns(isr, Snapshot(), k);
          return;
        }
        DueAfterJump(s, next.value);
        AdvanceRunningTimers(next.value);
        remaining := remaining - next.value;
        SettleOfDue(isr, Snapshot());
        var raised := RaiseDueMatches();
        if !raised {
          assert false;
        }
        DispatchAll();
      }
      NoTurns(isr, Snapshot(), k);
    }

    /** Serves one match now, whatever its counter says. */
    method DispatchMatch(timerIndex: nat) returns (ok: bool)
      requires Valid()
      modifies this, timers
      ensures Valid() && (ok <==> timerIndex < TIMER_COUNT && MatchEnabled(old(Snapshot()), timerIndex))
      ensures Snapshot() == if !ok then old(Snapshot())
                            else RunAll(isr, Push(AtMatch(old(Snapshot()), timerIndex), TimerIrq(timerIndex),
                                                  TimerMatch(timerIndex)))
    {
      if !MatchInterruptEnabled(timerIndex) {
        return false;
      }
      ok := RaiseMatch(timerIndex);
      DispatchAll();
    }

    /** One jump to the next match; `cycles` is how far away it was. */
    method AdvanceToNextMatch() returns (ok: bool, ghost cycles: nat)
      requires Valid()
      modifies this, timers
      ensures Valid()
      ensures ok <==> exists i | 0 <= i < TIMER_COUNT :: MatchEnabled(old(Snapshot()), i)
      ensures !ok ==> Snapshot() == old(Snapshot())
      ensures ok ==>
                && NextMatch(old(Snapshot())) == Some(cycles)
                && Snapshot() == Settle(isr, Tick(old(Snapshot()), cycles))
                && (cycles > 0 ==> Snapshot() == Stepped(isr, old(Snapshot()), cycles))
                && (Good(isr, old(Snapshot()), cycles + 1) ==> !AnyDue(Snapshot()))
      ensures Ready(isr, old(Snapshot())) ==> Ready(isr, Snapshot()) && (ok ==> !AnyDue(Snapshot()))
    {
      hide Good, Ready, Stepped, Settle, Tick, AnyDue, RaiseDue, RunAll, DueCount, CyclesToMatch;
      ghost var s := Snapshot();
      var next := CyclesToNextMatch();
      assert Snapshot() == s;
      cycles := 0;
      if next == None {
        return false, cycles;
      }
      cycles := next.value;
      DueAfterJump(s, cycles);
      AdvanceRunningTimers(next.value);
      SettleOfDue(isr, Snapshot());
      if cycles > 0 {
        SteppedQuiet(isr, s, cycles);
      }
      if Ready(isr, s) {
        ReadyIsGood(isr, s, cycles + 1);
        TickKeepsReady(isr, s, cycles);
        SettleKeepsReady(isr, Snapshot());
      }
      if Good(isr, s, cycles + 1) {
        GoodJump(isr, s, cycles, 1);
      }
      var raised := RaiseDueMatches();
      if !raised {
        assert false;
      }
      DispatchAll();
      return true, cycles;
    }
  }

  lemma RaiseLeavesOthers(s: Core, i: nat)
    requires s.Valid() && i < TIMER_COUNT
    ensures forall j | 0 <= j < TIMER_COUNT && j != i :: Due(RaiseIfDue(s, i), j) == Due(s, j)
  {
  }
}
