/** The scheduler's loop over matches: each turn jumps to the next enabled match and serves what is due there, possibly
    at zero elapsed cycles. Whether the loop ends depends on the matches; where it ends, it is one-cycle stepping. */
module Advancing {
  import opened Arithmetic
  import opened Interrupts
  import opened Options
  import opened Timers

  /* ----- One turn of the loop ----- */

  /** The distance to the nearest enabled match of the first n timers; zero when one is due. */
  ghost function Nearest(s: Core, n: nat): (next: Option<nat>)
    requires s.Valid() && n <= TIMER_COUNT
    ensures next == None <==> forall i | 0 <= i < n :: !MatchEnabled(s, i)
    ensures next.Some? ==> forall i | 0 <= i < n && MatchEnabled(s, i) :: next.value <= CyclesToMatch(s.timers[i])
    ensures next.Some? ==>
              exists i | 0 <= i < n :: MatchEnabled(s, i) && CyclesToMatch(s.timers[i]) == next.value
  {
    if n == 0 then None
    else
      var best := Nearest(s, n - 1);
      var cycles := CyclesToMatch(s.timers[n - 1]);
      if MatchEnabled(s, n - 1) && (best == None || cycles < best.value) then Some(cycles) else best
  }

  ghost function NextMatch(s: Core): (next: Option<nat>)
    requires s.Valid()
    ensures next == None <==> forall i | 0 <= i < TIMER_COUNT :: !MatchEnabled(s, i)
    ensures next.Some? ==> QuietFor(s, next.value)
    ensures next.Some? ==>
              exists i | 0 <= i < TIMER_COUNT :: MatchEnabled(s, i) && CyclesToMatch(s.timers[i]) == next.value
  {
    Nearest(s, TIMER_COUNT)
  }

  /** The machine and the remaining cycles after one turn. */
  ghost function Turn(isr: Isr, s: Core, remaining: nat): (t: (Core, nat))
    requires s.Valid() && remaining > 0
    ensures t.0.Valid() && t.1 <= remaining
  {
    var next := NextMatch(s);
    if next == None || next.value > remaining then (Tick(s, remaining), 0)
    else (Settle(isr, Tick(s, next.value)), remaining - next.value)
  }

  ghost function Turns(isr: Isr, s: Core, remaining: nat, k: nat): (t: (Core, nat))
    requires s.Valid()
    ensures t.0.Valid()
    decreases k
  {
    if k == 0 || remaining == 0 then (s, remaining)
    else
      var t := Turn(isr, s, remaining);
      Turns(isr, t.0, t.1, k - 1)
  }

  /** The loop comes to its end. */
  ghost predicate Ends(isr: Isr, s: Core, cycles: nat)
    requires s.Valid()
  {
    exists k: nat :: Turns(isr, s, cycles, k).1 == 0
  }

  /** The machine where the loop ends; of no interest where it does not. */
  ghost function Advanced(isr: Isr, s: Core, cycles: nat): (s': Core)
    requires s.Valid()
    ensures s'.Valid()
  {
    if k: nat :| Turns(isr, s, cycles, k).1 == 0 then Turns(isr, s, cycles, k).0 else s
  }

  lemma {:induction false} TurnsEndOnce(isr: Isr, s: Core, remaining: nat, k: nat, m: nat)
    requires s.Valid() && Turns(isr, s, remaining, k).1 == 0 && Turns(isr, s, remaining, m).1 == 0
    ensures Turns(isr, s, remaining, k) == Turns(isr, s, remaining, m)
    decreases k
  {
    hide Turn;
    if remaining > 0 {
      var t := Turn(isr, s, remaining);
      TurnsEndOnce(isr, t.0, t.1, k - 1, m - 1);
    }
  }

  lemma EndsAfter(isr: Isr, s: Core, cycles: nat) returns (k: nat)
    requires s.Valid() && Ends(isr, s, cycles)
    ensures Turns(isr, s, cycles, k).1 == 0
  {
    hide Turns;
    k :| Turns(isr, s, cycles, k).1 == 0;
  }

  lemma AdvancedIs(isr: Isr, s: Core, cycles: nat, k: nat)
    requires s.Valid() && Turns(isr, s, cycles, k).1 == 0
    ensures Ends(isr, s, cycles) && Advanced(isr, s, cycles) == Turns(isr, s, cycles, k).0
  {
    hide Turns;
    var m: nat :| Turns(isr, s, cycles, m).1 == 0 && Advanced(isr, s, cycles) == Turns(isr, s, cycles, m).0;
    TurnsEndOnce(isr, s, cycles, k, m);
  }

  lemma TurnsUnfold(isr: Isr, s: Core, remaining: nat, k: nat)
    requires s.Valid() && remaining > 0
    ensures k > 0 ==> var t := Turn(isr, s, remaining); Turns(isr, s, remaining, k) == Turns(isr, t.0, t.1, k - 1)
    ensures Turns(isr, s, remaining, 0) == (s, remaining)
  {
    hide Turn;
  }

  /** The loop ends from a state exactly when it ends from the state after one turn, and in the same state. */
  lemma AdvancedUnfolds(isr: Isr, s: Core, cycles: nat)
    requires s.Valid() && cycles > 0
    ensures var t := Turn(isr, s, cycles);
            && (Ends(isr, s, cycles) <==> Ends(isr, t.0, t.1))
            && (Ends(isr, s, cycles) ==> Advanced(isr, s, cycles) == Advanced(isr, t.0, t.1))
  {
    hide Turn, Turns;
    var t := Turn(isr, s, cycles);
    if Ends(isr, s, cycles) {
      var k: nat :| Turns(isr, s, cycles, k).1 == 0;
      TurnsUnfold(isr, s, cycles, k);
      AdvancedIs(isr, s, cycles, k);
      AdvancedIs(isr, t.0, t.1, k - 1);
    }
    if Ends(isr, t.0, t.1) {
      var m: nat :| Turns(isr, t.0, t.1, m).1 == 0;
      TurnsUnfold(isr, s, cycles, m + 1);
    }
  }

  lemma NothingToAdvance(isr: Isr, s: Core)
    requires s.Valid()
    ensures Ends(isr, s, 0) && Advanced(isr, s, 0) == s
  {
    AdvancedIs(isr, s, 0, 0);
  }

  /* ----- Cutting an advance in two, whatever the handlers do ----- */

  /** A turn of an advance is the same turn of a longer one, unless it is the last and serves nothing; then the turn of
      the longer one is cut in two. */
  lemma TurnOfLonger(isr: Isr, s: Core, a: nat, b: nat)
    requires s.Valid() && a > 0 && b > 0
    ensures var t, long := Turn(isr, s, a), Turn(isr, s, a + b);
            if NextMatch(s).Some? && NextMatch(s).value <= a then long == (t.0, t.1 + b)
            else t == (Tick(s, a), 0) && Turn(isr, Tick(s, a), b) == long
  {
    hide Settle, Tick, MatchEnabled, CyclesToMatch;
    var next := NextMatch(s);
    if next == None || next.value > a {
      var s1 := Tick(s, a);
      NextAfterTick(s, a);
      TickTwice(s, a, b);
      if next.Some? && next.value <= a + b {
        TickTwice(s, a, next.value - a);
      }
    }
  }

  lemma NextAfterTick(s: Core, a: nat)
    requires s.Valid() && (NextMatch(s) == None || NextMatch(s).value > a)
    ensures NextMatch(Tick(s, a)) == if NextMatch(s) == None then None else Some(NextMatch(s).value - a)
  {
    hide Tick, MatchEnabled, CyclesToMatch;
    TickKeepsEnabled(s, a);
    QuietTick(s, a);
  }

  lemma {:induction false} TurnsGlued(isr: Isr, s: Core, a: nat, b: nat, k: nat, m: nat) returns (j: nat)
    requires s.Valid() && Turns(isr, s, a, k).1 == 0 && Turns(isr, Turns(isr, s, a, k).0, b, m).1 == 0
    ensures Turns(isr, s, a + b, j) == Turns(isr, Turns(isr, s, a, k).0, b, m)
    decreases k
  {
    hide Turn, Turns, Tick;
    if a == 0 {
      NoTurns(isr, s, k);
      return m;
    }
    var s1 := Turns(isr, s, a, k).0;
    if b == 0 {
      NoTurns(isr, s1, m);
      return k;
    }
    TurnsUnfold(isr, s, a, k);
    TurnOfLonger(isr, s, a, b);
    var t := Turn(isr, s, a);
    if NextMatch(s).Some? && NextMatch(s).value <= a {
      j := TurnsGlued(isr, t.0, t.1, b, k - 1, m);
      TurnsUnfold(isr, s, a + b, j + 1);
      j := j + 1;
    } else {
      NoTurns(isr, t.0, k - 1);
      TurnsUnfold(isr, s1, b, m);
      TurnsUnfold(isr, s, a + b, m);
      j := m;
    }
  }

  lemma NoTurns(isr: Isr, s: Core, k: nat)
    requires s.Valid()
    ensures Turns(isr, s, 0, k) == (s, 0)
  {
  }

  lemma {:induction false} TurnsCut(isr: Isr, s: Core, a: nat, b: nat, j: nat) returns (k: nat, m: nat)
    requires s.Valid() && Turns(isr, s, a + b, j).1 == 0
    ensures Turns(isr, s, a, k).1 == 0 && Turns(isr, Turns(isr, s, a, k).0, b, m).1 == 0
    decreases j
  {
    hide Turn, Turns, Tick;
    if a == 0 {
      NoTurns(isr, s, 0);
      return 0, j;
    }
    if b == 0 {
      NoTurns(isr, Turns(isr, s, a, j).0, 0);
      return j, 0;
    }
    TurnsUnfold(isr, s, a + b, j);
    TurnOfLonger(isr, s, a, b);
    var t := Turn(isr, s, a);
    if NextMatch(s).Some? && NextMatch(s).value <= a {
      k, m := TurnsCut(isr, t.0, t.1, b, j - 1);
      TurnsUnfold(isr, s, a, k + 1);
      k := k + 1;
    } else {
      k, m := 1, j;
      TurnsUnfold(isr, s, a, 1);
      NoTurns(isr, t.0, 0);
      TurnsUnfold(isr, t.0, b, j);
    }
  }

  /** Whatever the handlers do: where advancing by a + b cycles ends, advancing by a does and then by b, and that leaves
      the same machine. */
  lemma AdvanceIsCut(isr: Isr, s: Core, a: nat, b: nat)
    requires s.Valid() && Ends(isr, s, a + b)
    ensures Ends(isr, s, a)
    ensures var s1 := Advanced(isr, s, a);
            Ends(isr, s1, b) && Advanced(isr, s1, b) == Advanced(isr, s, a + b)
  {
    hide Turns;
    var j := EndsAfter(isr, s, a + b);
    var k, m := TurnsCut(isr, s, a, b, j);
    AdvancedIs(isr, s, a, k);
    var s1 := Turns(isr, s, a, k).0;
    AdvancedIs(isr, s1, b, m);
    var whole := TurnsGlued(isr, s, a, b, k, m);
    AdvancedIs(isr, s, a + b, whole);
  }

  /** And the other way round. */
  lemma AdvancesAreGlued(isr: Isr, s: Core, a: nat, b: nat)
    requires s.Valid() && Ends(isr, s, a) && Ends(isr, Advanced(isr, s, a), b)
    ensures Ends(isr, s, a + b)
  {
    hide Turns;
    var k := EndsAfter(isr, s, a);
    AdvancedIs(isr, s, a, k);
    var m := EndsAfter(isr, Turns(isr, s, a, k).0, b);
    var j := TurnsGlued(isr, s, a, b, k, m);
  }

  /* ----- One turn is stepping ----- */

  ghost function DueCount(s: Core): nat
    requires s.Valid()
  {
    (if Due(s, 0) then 1 else 0) + (if Due(s, 1) then 1 else 0) + (if Due(s, 2) then 1 else 0)
  }

  /** After a jump to the next match something is due. */
  lemma DueAfterJump(s: Core, next: nat)
    requires s.Valid() && QuietFor(s, next)
    requires exists i | 0 <= i < TIMER_COUNT :: MatchEnabled(s, i) && CyclesToMatch(s.timers[i]) == next
    ensures AnyDue(Tick(s, next)) && (next == 0 ==> DueCount(s) > 0)
  {
    hide Tick, MatchEnabled, CyclesToMatch;
    var i :| 0 <= i < TIMER_COUNT && MatchEnabled(s, i) && CyclesToMatch(s.timers[i]) == next;
    QuietTick(s, next);
    TickKeepsEnabled(s, next);
    DueIsAtZero(Tick(s, next), i);
    DueIsAtZero(s, i);
  }

  /** So the loop serves matches after every jump: its way out for nothing raised is never taken. */
  lemma SettleOfDue(isr: Isr, s: Core)
    requires s.Valid() && AnyDue(s)
    ensures Settle(isr, s) == RunAll(isr, RaiseDue(s, TIMER_COUNT))
  {
  }

  /** One turn does what stepping does, provided that serving leaves nothing due while cycles remain; it then comes
      nearer to the end, by cycles or by due timers. */
  lemma TurnIsStepping(isr: Isr, s: Core, remaining: nat)
    requires s.Valid() && remaining > 0
    requires var t := Turn(isr, s, remaining); t.1 > 0 ==> !AnyDue(t.0)
    ensures var t := Turn(isr, s, remaining);
            && Stepped(isr, t.0, t.1) == Stepped(isr, s, remaining)
            && (t.1 == remaining ==> DueCount(t.0) < DueCount(s))
  {
    hide Settle, Stepped, Tick, QuietFor, MatchEnabled, CyclesToMatch;
    var next := NextMatch(s);
    if next == None || next.value > remaining {
      JumpToEnd(isr, s, remaining);
      SteppedNone(isr, Tick(s, remaining));
    } else {
      JumpToMatch(isr, s, next.value, remaining - next.value);
    }
  }

  /** No match within the remaining cycles: they pass without serving anything. */
  lemma JumpToEnd(isr: Isr, s: Core, n: nat)
    requires s.Valid() && n > 0 && (NextMatch(s) == None || NextMatch(s).value > n)
    ensures Stepped(isr, s, n) == Tick(s, n)
  {
    hide Tick, Settle;
    assert forall i | 0 <= i < TIMER_COUNT && MatchEnabled(s, i) :: n < CyclesToMatch(s.timers[i]);
    SteppedQuiet(isr, s, n);
    NothingDueYet(s, n);
    SettleWhenNothingDue(isr, Tick(s, n));
  }

  lemma JumpToMatch(isr: Isr, s: Core, next: nat, rest: nat)
    requires s.Valid() && next + rest > 0 && QuietFor(s, next)
    requires exists i | 0 <= i < TIMER_COUNT :: MatchEnabled(s, i) && CyclesToMatch(s.timers[i]) == next
    requires rest > 0 ==> !AnyDue(Settle(isr, Tick(s, next)))
    ensures var s1 := Tick(s, next);
            && AnyDue(s1)
            && Stepped(isr, Settle(isr, s1), rest) == Stepped(isr, s, next + rest)
            && (next == 0 ==> DueCount(Settle(isr, s1)) < DueCount(s))
  {
    hide Settle, Stepped, Tick, QuietFor, MatchEnabled, CyclesToMatch, Due;
    DueAfterJump(s, next);
    if next == 0 {
      NoTick(s);
      SteppedFromSettled(isr, s, rest);
    } else {
      SteppedQuiet(isr, s, next);
      SteppedSum(isr, s, next, rest);
    }
  }

  lemma SteppedNone(isr: Isr, s: Core)
    requires s.Valid()
    ensures Stepped(isr, s, 0) == s
  {
  }

  /* ----- When the loop ends: handlers that leave the registers alone ----- */

  /** Every enabled match that neither resets nor stops is at least the whole advance away; and where such a timer's
      match is still pending, so is every enabled match, since the next dispatch would serve it. */
  ghost predicate Clear(s: Core, cycles: nat)
    requires s.Valid()
  {
    forall i | 0 <= i < TIMER_COUNT && MatchEnabled(s, i) && Neither(s.timers[i]) ::
      cycles <= CyclesToMatch(s.timers[i]) && (Entries(s.pending, i) > 0 ==> QuietFor(s, cycles))
  }

  /** One timer after a turn that served something. */
  lemma TimerAfterTurn(isr: Isr, s: Core, next: nat, i: nat)
    requires Calm(isr, s) && QuietFor(s, next) && AnyDue(Tick(s, next))
    requires i < TIMER_COUNT && MatchEnabled(s, i) && Neither(s.timers[i])
    ensures var s', t := Settle(isr, Tick(s, next)), s.timers[i];
            && Calm(isr, s') && MatchEnabled(s', i) && Neither(s'.timers[i])
            && Entries(s'.pending, i) == 0
            && (if Entries(s.pending, i) > 0 then CyclesToMatch(s'.timers[i]) == 0
                else CyclesToMatch(s'.timers[i]) == CyclesToMatch(t) - next)
  {
    hide Settle, Tick, AnyDue, Ran, Entries, QuietFor;
    var s1 := Tick(s, next);
    TickKeepsCalm(isr, s, next);
    TimerTicks(s, next, i);
    QuietTick(s, next);
    TickKeepsEnabled(s, next);
    SettleServes(isr, s1);
    assert SettledTimer(s1, Settle(isr, s1), i);
  }

  lemma TickKeepsCalm(isr: Isr, s: Core, cycles: nat)
    requires Calm(isr, s)
    ensures Calm(isr, Tick(s, cycles)) && Tick(s, cycles).pending == s.pending
  {
  }

  /** A timer that is enabled after a turn and neither resets nor stops was so before. */
  lemma TimerBeforeTurn(isr: Isr, s: Core, next: nat, i: nat)
    requires Calm(isr, s) && i < TIMER_COUNT
    requires MatchEnabled(Settle(isr, Tick(s, next)), i) && Neither(Settle(isr, Tick(s, next)).timers[i])
    ensures MatchEnabled(s, i) && Neither(s.timers[i])
  {
    hide Settle, Tick, AnyDue, Ran, Entries;
    var s1 := Tick(s, next);
    TickKeepsCalm(isr, s, next);
    TimerTicks(s, next, i);
    TickKeepsEnabled(s, next);
    SettleServes(isr, s1);
    assert SettledTimer(s1, Settle(isr, s1), i);
  }

  /** Where the condition holds for more cycles than the jump takes, serving leaves nothing due, and the condition
      holds for the rest. */
  lemma ClearJump(isr: Isr, s: Core, next: nat, rest: nat)
    requires Calm(isr, s) && QuietFor(s, next) && AnyDue(Tick(s, next)) && Clear(s, next + rest)
    ensures var s' := Settle(isr, Tick(s, next));
            Calm(isr, s') && Clear(s', rest) && (rest > 0 ==> !AnyDue(s'))
  {
    hide Settle, Tick, AnyDue, Entries, CyclesToMatch, MatchEnabled, QuietFor;
    var s1 := Tick(s, next);
    var s' := Settle(isr, s1);
    TickKeepsCalm(isr, s, next);
    SettleServes(isr, s1);
    forall i | 0 <= i < TIMER_COUNT && MatchEnabled(s', i) && Neither(s'.timers[i])
      ensures rest <= CyclesToMatch(s'.timers[i]) && Entries(s'.pending, i) == 0
    {
      TimerBeforeTurn(isr, s, next, i);
      TimerAfterTurn(isr, s, next, i);
      NotPendingAtDue(s, next, rest, i);
    }
    if rest > 0 {
      ClearLeavesNothingDue(isr, s, next, rest);
    }
  }

  /** A jump that makes something due is not quiet for any longer. */
  lemma NotPendingAtDue(s: Core, next: nat, rest: nat, i: nat)
    requires s.Valid() && QuietFor(s, next) && AnyDue(Tick(s, next)) && Clear(s, next + rest)
    requires i < TIMER_COUNT && MatchEnabled(s, i) && Neither(s.timers[i])
    ensures Entries(s.pending, i) > 0 ==> rest == 0
  {
    hide Tick, Entries, CyclesToMatch, MatchEnabled, AnyDue;
    if Entries(s.pending, i) > 0 && rest > 0 {
      assert forall j | 0 <= j < TIMER_COUNT && MatchEnabled(s, j) :: next < CyclesToMatch(s.timers[j]);
      NothingDueYet(s, next);
    }
  }

  lemma ClearLeavesNothingDue(isr: Isr, s: Core, next: nat, rest: nat)
    requires Calm(isr, s) && QuietFor(s, next) && AnyDue(Tick(s, next)) && Clear(s, next + rest) && rest > 0
    ensures !AnyDue(Settle(isr, Tick(s, next)))
  {
    hide Settle, Tick, AnyDue, Entries, CyclesToMatch, QuietFor, MatchEnabled;
    var s1 := Tick(s, next);
    TickKeepsCalm(isr, s, next);
    TickKeepsEnabled(s, next);
    QuietTick(s, next);
    forall i | 0 <= i < TIMER_COUNT && MatchEnabled(s1, i) && Neither(s1.timers[i])
      ensures !Due(s1, i) && Entries(s1.pending, i) == 0
    {
      TimerTicks(s, next, i);
      DueIsAtZero(s1, i);
      NotPendingAtDue(s, next, rest, i);
    }
    NothingDueAfterExactlyWhen(isr, s1);
  }

  /** Where the condition fails, it fails after a turn, and cycles remain. */
  lemma StuckTurn(isr: Isr, s: Core, remaining: nat)
    requires Calm(isr, s) && !Clear(s, remaining)
    ensures remaining > 0
    ensures var t := Turn(isr, s, remaining); Calm(isr, t.0) && t.1 > 0 && !Clear(t.0, t.1)
  {
    hide Settle, Tick, AnyDue, Entries, CyclesToMatch, MatchEnabled;
    var i :| 0 <= i < TIMER_COUNT && MatchEnabled(s, i) && Neither(s.timers[i])
             && !(remaining <= CyclesToMatch(s.timers[i]) && (Entries(s.pending, i) > 0 ==> QuietFor(s, remaining)));
    var next := NextMatch(s).value;
    assert next < remaining;
    DueAfterJump(s, next);
    TimerAfterTurn(isr, s, next, i);
  }

  lemma {:induction false} StuckForever(isr: Isr, s: Core, remaining: nat, k: nat)
    requires Calm(isr, s) && !Clear(s, remaining)
    ensures Turns(isr, s, remaining, k).1 > 0
    decreases k
  {
    hide Settle, Tick, Clear, Turn;
    StuckTurn(isr, s, remaining);
    if k > 0 {
      var t := Turn(isr, s, remaining);
      StuckForever(isr, t.0, t.1, k - 1);
    }
  }

  /* ----- Handlers that arm timers ----- */

  predicate Governed(t: Timer) {
    t.interruptOnMatch ==> !Neither(t)
  }

  predicate Below(t: Timer) {
    t.running && t.interruptOnMatch && t.mr0 != 0 ==> t.tc < t.mr0
  }

  /** Stores that never leave a match without reset or stop, and never carry a timer to or past its match. */
  ghost predicate Arming(stores: seq<Store>) {
    forall t: Timer | Governed(t) ::
      Governed(StoredAll(t, stores)) && (Below(t) ==> Below(StoredAll(t, stores)))
  }

  ghost predicate TameAction(a: Action) {
    match a
    case Raise(_, _, body) => TameBody(body)
    case SetEnabled(_, on) => !on
    case SetGlobal(on) => !on
    case StoreTimer(_, stores) => Arming(stores)
    case _ => true
  }

  ghost predicate TameBody(body: seq<Action>) {
    body == [] || (TameAction(body[0]) && TameBody(body[1..]))
  }

  ghost predicate TamePending(p: Pending) {
    match p.handler
    case Device(_, body) => TameBody(body)
    case TimerMatch(i) => p.irq == TimerIrq(i)
  }

  /** Handlers may dispatch, mask interrupts, change priorities and arm timers. */
  ghost predicate Tame(isr: Isr, s: Core) {
    && s.Valid()
    && (forall i, core :: TameBody(isr(i, core)))
    && (forall k | 0 <= k < |s.pending| :: TamePending(s.pending[k]))
    && forall i | 0 <= i < TIMER_COUNT :: Governed(s.timers[i])
  }

  /** During a dispatch, a timer that is due is being served or waits to be. */
  ghost predicate DueIsServed(s: Core, serving: set<nat>)
    requires s.Valid()
  {
    forall i | 0 <= i < TIMER_COUNT && Due(s, i) :: i in serving || Entries(s.pending, i) > 0
  }

  ghost predicate Serving(isr: Isr, s: Core, serving: set<nat>) {
    Tame(isr, s) && DueIsServed(s, serving)
  }

  lemma PushServes(isr: Isr, s: Core, irq: int, id: nat, body: seq<Action>, serving: set<nat>)
    requires Serving(isr, s, serving) && TameBody(body)
    ensures Serving(isr, Push(s, irq, Device(id, body)), serving)
  {
    hide Entries;
    forall i | 0 <= i < TIMER_COUNT
      ensures Entries(Push(s, irq, Device(id, body)).pending, i) == Entries(s.pending, i)
    {
      EntriesOfAppend(s.pending, Pending(irq, s.nextSequence, Device(id, body)), i);
    }
  }

  lemma StoreServes(isr: Isr, s: Core, timer: nat, stores: seq<Store>, serving: set<nat>)
    requires Serving(isr, s, serving) && Arming(stores)
    ensures Serving(isr, s.(timers := WithStores(s.timers, timer, stores)), serving)
  {
    hide Entries, StoredAll;
    var s' := s.(timers := WithStores(s.timers, timer, stores));
    forall i | 0 <= i < TIMER_COUNT
      ensures Governed(s'.timers[i]) && (Due(s', i) ==> Due(s, i))
    {
      assert Governed(s.timers[i]);
      assert Below(s.timers[i]) ==> Below(s'.timers[i]);
    }
  }

  lemma {:induction false} RunActionTame(isr: Isr, a: Action, s: Core, serving: set<nat>)
    requires Serving(isr, s, serving) && TameAction(a)
    ensures Serving(isr, RunAction(isr, a, s), serving)
    decreases TimerEntries(s.pending), PendingWeight(s.pending) + ActionWeight(a), 0
  {
    hide Entries, Arming, Push, WithStores;
    match a {
      case Raise(irq, id, body) => PushServes(isr, s, irq, id, body, serving);
      case DispatchNext => DispatchNextTame(isr, s, serving);
      case DispatchAll => RunAllTame(isr, s, serving);
      case StoreTimer(i, stores) => StoreServes(isr, s, i, stores, serving);
      case _ =>
    }
  }

  lemma {:induction false} RunBodyTame(isr: Isr, body: seq<Action>, s: Core, serving: set<nat>)
    requires Serving(isr, s, serving) && TameBody(body)
    ensures Serving(isr, RunBody(isr, body, s), serving)
    decreases TimerEntries(s.pending), PendingWeight(s.pending) + BodyWeight(body), 1
  {
    hide Entries, Serving;
    if body != [] {
      ServingIsValid(isr, s, serving);
      RunActionTame(isr, body[0], s, serving);
      RunBodyTame(isr, body[1..], RunAction(isr, body[0], s), serving);
    }
  }

  lemma ServingIsValid(isr: Isr, s: Core, serving: set<nat>)
    requires Serving(isr, s, serving)
    ensures s.Valid()
  {
  }

  /** The match of a timer is taken: it is being served, and its counter stands at the match. */
  lemma TakenServes(isr: Isr, s: Core, k: nat, serving: set<nat>)
    requires Serving(isr, s, serving) && k < |s.pending|
    ensures match s.pending[k].handler
            case Device(_, _) => Serving(isr, Taken(s, k), serving)
            case TimerMatch(i) => Serving(isr, AtMatch(Taken(s, k), i), serving + {i})
  {
    hide Entries;
    forall i | 0 <= i < TIMER_COUNT
      ensures Entries(Taken(s, k).pending, i)
              == Entries(s.pending, i) - if s.pending[k].handler == TimerMatch(i) then 1 else 0
    {
      TakenEntries(s, k, i);
    }
  }

  /** When the handler is done, reset or stop makes sure that the timer is not due. */
  lemma ServedIsNotDue(isr: Isr, s: Core, i: nat, serving: set<nat>)
    requires i < TIMER_COUNT && Serving(isr, s, serving + {i})
    ensures Serving(isr, AfterMatch(s, i), serving)
  {
    hide Entries;
    assert Governed(s.timers[i]);
  }

  lemma {:induction false} DispatchNextTame(isr: Isr, s: Core, serving: set<nat>)
    requires Serving(isr, s, serving)
    ensures Serving(isr, TryDispatchNext(isr, s), serving)
    decreases TimerEntries(s.pending), PendingWeight(s.pending), 3
  {
    hide Entries, DueIsServed;
    var k := Best(s);
    if k != -1 {
      WeightsWithout(s.pending, k);
      TakenServes(isr, s, k, serving);
      var s1 := Taken(s, k);
      assert TamePending(s.pending[k]);
      match s.pending[k].handler {
        case Device(_, body) => RunBodyTame(isr, body, s1, serving);
        case TimerMatch(i) =>
          var body := isr(i, AtMatch(s1, i));
          RunBodyTame(isr, body, AtMatch(s1, i), serving + {i});
          ServedIsNotDue(isr, RunBody(isr, body, AtMatch(s1, i)), i, serving);
      }
    }
  }

  lemma {:induction false} RunAllTame(isr: Isr, s: Core, serving: set<nat>)
    requires Serving(isr, s, serving)
    ensures Serving(isr, RunAll(isr, s), serving)
    decreases TimerEntries(s.pending), PendingWeight(s.pending), 4
  {
    hide Entries, Serving;
    ServingIsValid(isr, s, serving);
    if Best(s) != -1 {
      DispatchNextTame(isr, s, serving);
      RunAllTame(isr, TryDispatchNext(isr, s), serving);
    }
  }

  /** The timers that are due wait to be served. */
  lemma RaisingServes(isr: Isr, s: Core, r: Core)
    requires Tame(isr, s) && RaisedUpTo(s, r, TIMER_COUNT)
    ensures Serving(isr, r, {})
  {
    hide Entries;
    forall k | 0 <= k < |r.pending| ensures TamePending(r.pending[k]) {
      if k < |s.pending| {
        assert TamePending(s.pending[k]);
      } else {
        assert IsMatch(r.pending[k]);
      }
    }
  }

  lemma NoTameMatchLeft(isr: Isr, s: Core, i: nat)
    requires Tame(isr, s) && Best(s) == -1 && i < TIMER_COUNT && s.nvic.Eligible(TimerIrq(i))
    ensures Entries(s.pending, i) == 0
  {
    forall k | 0 <= k < |s.pending|
      ensures s.pending[k].handler != TimerMatch(i)
    {
      assert TamePending(s.pending[k]);
    }
    NoEntries(s.pending, i);
  }

  /** Serving leaves nothing due, although handlers arm timers meanwhile. */
  lemma TameLeavesNothingDue(isr: Isr, s: Core)
    requires Tame(isr, s)
    ensures Tame(isr, Settle(isr, s)) && !AnyDue(Settle(isr, s))
  {
    hide Entries;
    if AnyDue(s) {
      var r := RaiseDue(s, TIMER_COUNT);
      RaiseDueEffect(s, TIMER_COUNT);
      RaisingServes(isr, s, r);
      RunAllTame(isr, r, {});
      var s' := RunAll(isr, r);
      forall i | 0 <= i < TIMER_COUNT
        ensures !Due(s', i)
      {
        if Due(s', i) { NoTameMatchLeft(isr, s', i); }
      }
    }
  }

  lemma TickKeepsTame(isr: Isr, s: Core, cycles: nat)
    requires Tame(isr, s)
    ensures Tame(isr, Tick(s, cycles))
  {
  }

  /** Starting a timer arms it exactly when the same store resets its counter; a later store may then drop the reset
      bit, as the step ticker does with its pulse timer. */
  lemma StartingArmsExactlyWhenReset(reset: bool)
    ensures Arming([Control(true, reset)]) <==> reset
    ensures Arming([Control(true, true), Control(true, false)])
  {
    assert forall t: Timer, stores: seq<Store> | stores != [] ::
        StoredAll(t, stores) == StoredAll(Stored(t, stores[0]), stores[1..]);
    var both := [Control(true, true), Control(true, false)];
    assert both[1..] == [Control(true, false)] && both[1..][1..] == [] && [Control(true, reset)][1..] == [];
    if !reset {
      var stopped := Timer(5, 5, true, true, false, false);
      assert Governed(stopped) && Below(stopped) && !Below(StoredAll(stopped, [Control(true, reset)]));
    }
  }

  /* ----- The loop refines stepping ----- */

  /** What makes advancing by some cycles end: tame handlers, or handlers that leave the registers alone and no match
      in the way that neither resets nor stops. */
  ghost predicate Good(isr: Isr, s: Core, cycles: nat)
  {
    Tame(isr, s) || (Calm(isr, s) && Clear(s, cycles))
  }

  lemma GoodForLess(isr: Isr, s: Core, cycles: nat, less: nat)
    requires Good(isr, s, cycles) && less <= cycles
    ensures s.Valid() && Good(isr, s, less)
  {
    hide Entries, CyclesToMatch;
  }

  lemma ReadyIsGood(isr: Isr, s: Core, cycles: nat)
    requires Ready(isr, s)
    ensures Good(isr, s, cycles)
  {
  }

  lemma GoodTick(isr: Isr, s: Core, cycles: nat, rest: nat)
    requires Good(isr, s, cycles + rest) && QuietFor(s, cycles)
    ensures Good(isr, Tick(s, cycles), rest)
  {
    hide Tick, Entries, CyclesToMatch, MatchEnabled;
    var s1 := Tick(s, cycles);
    if Tame(isr, s) {
      TickKeepsTame(isr, s, cycles);
    } else {
      TickKeepsCalm(isr, s, cycles);
      TickKeepsEnabled(s, cycles);
      QuietTick(s, cycles);
      forall i | 0 <= i < TIMER_COUNT && MatchEnabled(s1, i) && Neither(s1.timers[i])
        ensures rest <= CyclesToMatch(s1.timers[i]) && (Entries(s1.pending, i) > 0 ==> QuietFor(s1, rest))
      {
        TimerTicks(s, cycles, i);
      }
    }
  }

  lemma GoodJump(isr: Isr, s: Core, next: nat, rest: nat)
    requires Good(isr, s, next + rest) && QuietFor(s, next) && AnyDue(Tick(s, next))
    ensures var s' := Settle(isr, Tick(s, next)); Good(isr, s', rest) && (rest > 0 ==> !AnyDue(s'))
  {
    hide Tick, Settle, AnyDue, Clear;
    if Tame(isr, s) {
      TickKeepsTame(isr, s, next);
      TameLeavesNothingDue(isr, Tick(s, next));
    } else {
      ClearJump(isr, s, next, rest);
    }
  }

  /** A turn of an advance that is part of a longer one. */
  lemma GoodTurn(isr: Isr, s: Core, remaining: nat, rest: nat)
    requires Good(isr, s, remaining + rest) && remaining > 0
    ensures s.Valid()
    ensures var t := Turn(isr, s, remaining);
            && Good(isr, t.0, t.1 + rest)
            && Stepped(isr, t.0, t.1) == Stepped(isr, s, remaining)
            && (t.1 == remaining ==> DueCount(t.0) < DueCount(s))
  {
    hide Tick, Settle, AnyDue, Clear, Tame, Calm, Stepped, CyclesToMatch, MatchEnabled, DueCount;
    GoodForLess(isr, s, remaining + rest, remaining);
    var next := NextMatch(s);
    if next == None || next.value > remaining {
      GoodTick(isr, s, remaining, rest);
    } else {
      DueAfterJump(s, next.value);
      GoodJump(isr, s, next.value, remaining - next.value + rest);
    }
    TurnIsStepping(isr, s, remaining);
  }

  /** Good advances end, and jumping from match to match, serving matches at zero elapsed cycles where necessary, does
      to the machine exactly what stepping one cycle at a time does: counters, pending interrupts, handler calls, clock
      and remainder. */
  lemma {:induction false} AdvancedIsStepped(isr: Isr, s: Core, cycles: nat)
    requires Good(isr, s, cycles)
    ensures s.Valid() && Ends(isr, s, cycles) && Advanced(isr, s, cycles) == Stepped(isr, s, cycles)
    decreases cycles, if cycles > 0 && s.Valid() then DueCount(s) else 0
  {
    hide Turn, Good, DueCount, Cycle, Ends, Advanced;
    GoodForLess(isr, s, cycles, cycles);
    if cycles == 0 {
      NothingToAdvance(isr, s);
    } else {
      GoodTurn(isr, s, cycles, 0);
      AdvancedUnfolds(isr, s, cycles);
      var t := Turn(isr, s, cycles);
      AdvancedIsStepped(isr, t.0, t.1);
    }
  }

  /** The end of one advance is a good start for what remains of a longer one. */
  lemma {:induction false} AdvancedKeepsGood(isr: Isr, s: Core, cycles: nat, rest: nat)
    requires Good(isr, s, cycles + rest)
    ensures s.Valid() && Ends(isr, s, cycles) && Good(isr, Advanced(isr, s, cycles), rest)
    decreases cycles, if cycles > 0 && s.Valid() then DueCount(s) else 0
  {
    hide Turn, Good, DueCount, Stepped, Ends, Advanced;
    GoodForLess(isr, s, cycles + rest, cycles);
    if cycles == 0 {
      NothingToAdvance(isr, s);
    } else {
      GoodTurn(isr, s, cycles, rest);
      AdvancedUnfolds(isr, s, cycles);
      var t := Turn(isr, s, cycles);
      AdvancedKeepsGood(isr, t.0, t.1, rest);
    }
  }

  /** With handlers that leave the registers alone, advancing by some cycles ends if and only if every enabled match
      that neither resets nor stops is at least that far away, and none of them waits for the dispatch of a nearer
      one. Otherwise the loop runs for ever with cycles remaining. */
  lemma AdvancingEndsExactlyWhen(isr: Isr, s: Core, cycles: nat)
    requires Calm(isr, s)
    ensures Ends(isr, s, cycles) <==> Clear(s, cycles)
  {
    hide Turns, Clear;
    if Clear(s, cycles) {
      AdvancedIsStepped(isr, s, cycles);
    } else {
      forall k: nat ensures Turns(isr, s, cycles, k).1 != 0 {
        StuckForever(isr, s, cycles, k);
      }
    }
  }

  /** Without pending matches the condition is a distance to compare the advance with. */
  lemma AdvancingEndsWithoutPendingExactlyWhen(isr: Isr, s: Core, cycles: nat)
    requires Calm(isr, s) && forall i | 0 <= i < TIMER_COUNT :: Entries(s.pending, i) == 0
    ensures Ends(isr, s, cycles)
            <==> forall i | 0 <= i < TIMER_COUNT && MatchEnabled(s, i) && Neither(s.timers[i]) ::
                   cycles <= CyclesToMatch(s.timers[i])
  {
    hide Ends, Entries;
    AdvancingEndsExactlyWhen(isr, s, cycles);
  }

  /** A machine whose timer 0 interrupts on match, at count 10 of 10, and neither resets nor stops: one cycle is too
      many. */
  lemma AdvancingMayNeverEnd(isr: Isr)
    requires forall i, core :: isr(i, core) == []
    ensures var off := Timer(0, 0, false, false, false, false);
            var nvic := Nvic(seq(IRQ_SLOTS, _ => true), seq(IRQ_SLOTS, _ => 0), true);
            var s := Core([Timer(10, 10, true, false, false, true), off, off, off], nvic, [], 0, 0, 0, 100_000_000, []);
            Calm(isr, s) && !Ends(isr, s, 1)
  {
    var off := Timer(0, 0, false, false, false, false);
    var nvic := Nvic(seq(IRQ_SLOTS, _ => true), seq(IRQ_SLOTS, _ => 0), true);
    var s := Core([Timer(10, 10, true, false, false, true), off, off, off], nvic, [], 0, 0, 0, 100_000_000, []);
    assert MatchEnabled(s, 0) && Neither(s.timers[0]) && CyclesToMatch(s.timers[0]) == 0;
    AdvancingEndsExactlyWhen(isr, s, 1);
  }

  /** With tame handlers every advance ends. */
  lemma TameAdvancingEnds(isr: Isr, s: Core, cycles: nat)
    requires Tame(isr, s)
    ensures Ends(isr, s, cycles)
  {
    hide Ends, Tame;
    AdvancedIsStepped(isr, s, cycles);
  }

  /** What holds of the machine after an advance. */
  lemma EndOfAdvance(isr: Isr, s: Core, cycles: nat)
    requires s.Valid() && Ends(isr, s, cycles)
    ensures var s' := Advanced(isr, s, cycles);
            && (Good(isr, s, cycles) ==> s' == Stepped(isr, s, cycles))
            && (forall rest: nat :: Good(isr, s, cycles + rest) ==> Good(isr, s', rest))
            && (forall rest: nat :: Ends(isr, s, cycles + rest) ==>
                  Ends(isr, s', rest) && Advanced(isr, s', rest) == Advanced(isr, s, cycles + rest))
            && (Ready(isr, s) ==> Ready(isr, s'))
  {
    hide Good, Ready, Ends, Advanced, Stepped;
    var s' := Advanced(isr, s, cycles);
    if Ready(isr, s) {
      ReadyIsGood(isr, s, cycles);
      SteppedKeepsReady(isr, s, cycles);
    }
    if Good(isr, s, cycles) {
      AdvancedIsStepped(isr, s, cycles);
    }
    forall rest: nat | Good(isr, s, cycles + rest) ensures Good(isr, s', rest) {
      AdvancedKeepsGood(isr, s, cycles, rest);
    }
    forall rest: nat | Ends(isr, s, cycles + rest)
      ensures Ends(isr, s', rest) && Advanced(isr, s', rest) == Advanced(isr, s, cycles + rest)
    {
      AdvanceIsCut(isr, s, cycles, rest);
    }
  }

  /* ----- Whole runs of the scheduler, whatever the handlers do ----- */

  ghost function Total(advances: seq<nat>): nat {
    if advances == [] then 0 else advances[0] + Total(advances[1..])
  }

  /** The machine after calls that advance it by some cycles each. */
  ghost function AdvanceMany(isr: Isr, s: Core, advances: seq<nat>): (s': Core)
    requires s.Valid() && Ends(isr, s, Total(advances))
    ensures s'.Valid()
    decreases |advances|
  {
    if advances == [] then s
    else
      AdvanceIsCut(isr, s, advances[0], Total(advances[1..]));
      AdvanceMany(isr, Advanced(isr, s, advances[0]), advances[1..])
  }

  /** However a stretch of time is cut into advances, jumping through each of them leaves the counters, the ordered and
      time-stamped handler calls, the clock and its remainder as one advance over the whole stretch does. */
  lemma {:induction false} CutsDoNotMatter(isr: Isr, s: Core, advances: seq<nat>)
    requires s.Valid() && Ends(isr, s, Total(advances))
    ensures AdvanceMany(isr, s, advances) == Advanced(isr, s, Total(advances))
    decreases |advances|
  {
    hide Ends, Advanced;
    if advances == [] {
      NothingToAdvance(isr, s);
    } else {
      AdvanceIsCut(isr, s, advances[0], Total(advances[1..]));
      CutsDoNotMatter(isr, Advanced(isr, s, advances[0]), advances[1..]);
    }
  }

  /** The clock and its remainder after some cycles. */
  ghost function ClockOf(s: Core, cycles: nat): (nat, nat) {
    if cycles == 0 then (s.clockUs, s.remainder)
    else ClockAfter(s.clockUs, s.remainder, cycles, PclkHz(s.coreClock))
  }

  lemma TurnClock(isr: Isr, s: Core, remaining: nat)
    requires s.Valid() && remaining > 0
    ensures var t := Turn(isr, s, remaining);
            t.0.coreClock == s.coreClock && (t.0.clockUs, t.0.remainder) == ClockOf(s, remaining - t.1)
  {
    hide Settle, ClockAfter;
    var next := NextMatch(s);
    if next.Some? && next.value <= remaining {
      SettleKeepsClock(isr, Tick(s, next.value));
    }
  }

  lemma {:induction false} TurnsClock(isr: Isr, s: Core, remaining: nat, k: nat)
    requires s.Valid() && Turns(isr, s, remaining, k).1 == 0
    ensures var s' := Turns(isr, s, remaining, k).0;
            s'.coreClock == s.coreClock && (s'.clockUs, s'.remainder) == ClockOf(s, remaining)
    decreases k
  {
    hide Turn, Turns, ClockAfter;
    if remaining == 0 {
      NoTurns(isr, s, k);
    } else {
      TurnsUnfold(isr, s, remaining, k);
      TurnClock(isr, s, remaining);
      var t := Turn(isr, s, remaining);
      TurnsClock(isr, t.0, t.1, k - 1);
      ClockTwice(s.clockUs, s.remainder, remaining - t.1, t.1, PclkHz(s.coreClock));
    }
  }

  /** No drift: over any sequence of advances the microseconds added times the timer clock, a quarter of the core
      clock, plus the carried remainder, account exactly for the cycles that passed. */
  lemma NoDrift(isr: Isr, s: Core, advances: seq<nat>) returns (added: nat, hz: nat)
    requires s.Valid() && Ends(isr, s, Total(advances))
    ensures hz == if s.coreClock < 4 then 1 else s.coreClock / 4
    ensures var s' := AdvanceMany(isr, s, advances);
            && s'.clockUs == (if Total(advances) == 0 then s.clockUs
                              else (s.clockUs + added) % 0x1_0000_0000_0000_0000)
            && added * hz + s'.remainder == s.remainder + Total(advances) * 1_000_000
            && (s.remainder < hz ==> s'.remainder < hz)
  {
    hide Turns, Advanced, AdvanceMany, Quot, Rem;
    var n := Total(advances);
    hz := PclkHz(s.coreClock);
    CutsDoNotMatter(isr, s, advances);
    var k := EndsAfter(isr, s, n);
    AdvancedIs(isr, s, n, k);
    TurnsClock(isr, s, n, k);
    added := if n == 0 then 0 else Quot(s.remainder + MicroCycles(n), hz);
    Quotient(s.remainder + MicroCycles(n), hz);
    RemOfClock(s.clockUs + added);
  }

  lemma RemOfClock(us: nat)
    ensures Rem(us, CLOCK_RANGE) == us % 0x1_0000_0000_0000_0000
  {
  }

  /** At 100 MHz, started without a remainder, every 25 cycles are a microsecond, however the time is cut and whatever
      the handlers do. */
  lemma TwentyFiveCyclesAMicrosecond(isr: Isr, s: Core, advances: seq<nat>)
    requires s.Valid() && Ends(isr, s, Total(advances))
    requires s.coreClock == 100_000_000 && s.remainder == 0
    requires s.clockUs + Total(advances) / 25 < 0x1_0000_0000_0000_0000
    ensures AdvanceMany(isr, s, advances).clockUs == s.clockUs + Total(advances) / 25
  {
    hide AdvanceMany, Ends, Total;
    var added, hz := NoDrift(isr, s, advances);
    var n, rest := Total(advances), AdvanceMany(isr, s, advances).remainder;
    assert added * 25_000_000 + rest == n * 1_000_000 && rest < 25_000_000;
    assert added == n / 25;
  }

  /* ----- No counter passes its match ----- */

  ghost predicate WithinMatches(s: Core)
    requires s.Valid()
  {
    forall i | 0 <= i < TIMER_COUNT && MatchEnabled(s, i) :: s.timers[i].tc <= s.timers[i].mr0
  }

  lemma TickStaysWithin(s: Core, cycles: nat)
    requires s.Valid() && QuietFor(s, cycles) && WithinMatches(s)
    ensures WithinMatches(Tick(s, cycles))
  {
    hide Tick, MatchEnabled;
    TickKeepsEnabled(s, cycles);
    QuietTick(s, cycles);
    forall i | 0 <= i < TIMER_COUNT && MatchEnabled(Tick(s, cycles), i)
      ensures Tick(s, cycles).timers[i].tc <= Tick(s, cycles).timers[i].mr0
    {
      NeverOvershoots(s, cycles, i);
    }
  }

  lemma CalmSettleStaysWithin(isr: Isr, s: Core)
    requires Calm(isr, s) && WithinMatches(s)
    ensures Calm(isr, Settle(isr, s)) && WithinMatches(Settle(isr, s))
  {
    hide Settle, Entries, Ran;
    SettleServes(isr, s);
    forall i | 0 <= i < TIMER_COUNT && MatchEnabled(Settle(isr, s), i)
      ensures Settle(isr, s).timers[i].tc <= Settle(isr, s).timers[i].mr0
    {
      assert SettledTimer(s, Settle(isr, s), i);
    }
  }

  lemma TameSettleStaysWithin(isr: Isr, s: Core)
    requires Tame(isr, s)
    ensures Tame(isr, Settle(isr, s)) && WithinMatches(Settle(isr, s))
  {
    hide Settle;
    TameLeavesNothingDue(isr, s);
    forall i | 0 <= i < TIMER_COUNT && MatchEnabled(Settle(isr, s), i)
      ensures Settle(isr, s).timers[i].tc <= Settle(isr, s).timers[i].mr0
    {
      assert !Due(Settle(isr, s), i);
    }
  }

  lemma TurnStaysWithin(isr: Isr, s: Core, remaining: nat)
    requires (Calm(isr, s) || Tame(isr, s)) && remaining > 0 && WithinMatches(s)
    ensures var s' := Turn(isr, s, remaining).0; (Calm(isr, s') || Tame(isr, s')) && WithinMatches(s')
  {
    hide Settle, Tick, Tame, WithinMatches, MatchEnabled, CyclesToMatch;
    TameIsValid(isr, s);
    var next := NextMatch(s);
    var cycles := if next == None || next.value > remaining then remaining else next.value;
    TickStaysWithin(s, cycles);
    if Calm(isr, s) {
      TickKeepsCalm(isr, s, cycles);
      CalmSettleStaysWithin(isr, Tick(s, cycles));
    } else {
      TickKeepsTame(isr, s, cycles);
      TameSettleStaysWithin(isr, Tick(s, cycles));
    }
  }

  lemma TameIsValid(isr: Isr, s: Core)
    requires Calm(isr, s) || Tame(isr, s)
    ensures s.Valid()
  {
  }

  /** No enabled counter that starts at or below its match ever passes it: not after any number of turns of the loop,
      ending or not, although handlers may arm timers. */
  lemma {:induction false} LoopNeverOvershoots(isr: Isr, s: Core, cycles: nat, k: nat)
    requires (Calm(isr, s) || Tame(isr, s)) && WithinMatches(s)
    ensures WithinMatches(Turns(isr, s, cycles, k).0)
    decreases k
  {
    hide Turn, Calm, Tame, WithinMatches;
    TameIsValid(isr, s);
    if k > 0 && cycles > 0 {
      TurnStaysWithin(isr, s, cycles);
      var t := Turn(isr, s, cycles);
      LoopNeverOvershoots(isr, t.0, t.1, k - 1);
    }
  }

  /* ----- How often the loop calls a handler ----- */

  /** One turn seen by a free-running timer that the handlers leave alone: it only counts, or it reaches its match, is
      called once and starts again. */
  lemma TurnOfPeriodic(isr: Isr, s: Core, remaining: nat, i: nat)
    requires i < TIMER_COUNT && Leaves(isr, s, i) && Periodic(s, i) && remaining > 0
    ensures var (s', rest) := Turn(isr, s, remaining);
            var t := s.timers[i];
            var tc := t.tc + (remaining - rest);
            && Leaves(isr, s', i) && Periodic(s', i) && tc <= t.mr0
            && Ran(s'.log, i) == Ran(s.log, i) + (if tc == t.mr0 then 1 else 0)
            && s'.timers[i] == t.(tc := if tc == t.mr0 then 0 else tc)
  {
    hide Settle, Tick, AnyDue, Ran, Entries, Leaves, QuietFor;
    LeavesIsValid(isr, s, i);
    var next := NextMatch(s);
    var cycles := if next == None || next.value > remaining then remaining else next.value;
    MatchIsAhead(s, i);
    TickLeaves(isr, s, cycles, i);
    TimerTicks(s, cycles, i);
    DivisionIsUnique(s.timers[i].tc + cycles, WORD_RANGE, 0, s.timers[i].tc + cycles);
    SettleServesTimer(isr, Tick(s, cycles), i);
  }

  lemma MatchIsAhead(s: Core, i: nat)
    requires s.Valid() && i < TIMER_COUNT && MatchEnabled(s, i)
    ensures NextMatch(s).Some? && NextMatch(s).value <= CyclesToMatch(s.timers[i])
  {
  }

  lemma {:induction false} TurnsOfPeriodic(isr: Isr, s: Core, remaining: nat, k: nat, i: nat)
    requires i < TIMER_COUNT && Leaves(isr, s, i) && Periodic(s, i) && Turns(isr, s, remaining, k).1 == 0
    ensures var s', t := Turns(isr, s, remaining, k).0, s.timers[i];
            && Leaves(isr, s', i) && Periodic(s', i)
            && Ran(s'.log, i) == Ran(s.log, i) + Quot(t.tc + remaining, t.mr0)
            && s'.timers[i] == t.(tc := Rem(t.tc + remaining, t.mr0))
    decreases k
  {
    hide Turn, Turns, Ran, Entries, Leaves, Quot, Rem;
    LeavesIsValid(isr, s, i);
    var t := s.timers[i];
    if remaining == 0 {
      NoTurns(isr, s, k);
      DivisionIsUnique(t.tc, t.mr0, 0, t.tc);
    } else {
      TurnsUnfold(isr, s, remaining, k);
      TurnOfPeriodic(isr, s, remaining, i);
      var (s1, rest) := Turn(isr, s, remaining);
      TurnsOfPeriodic(isr, s1, rest, k - 1, i);
      var tc := t.tc + (remaining - rest);
      if tc == t.mr0 {
        DivisionIsUnique(tc, t.mr0, 1, 0);
      } else {
        DivisionIsUnique(tc, t.mr0, 0, tc);
      }
      CarriedDivision(t.tc, remaining - rest, rest, t.mr0);
    }
  }

  /** Whenever the loop ends: advancing by n cycles calls the handler of a free-running timer exactly
      floor((TC + n) / MR0) times and leaves TC = (TC + n) mod MR0, whatever the handlers do to the other timers and
      interrupts. */
  lemma AdvancingCallsPeriodically(isr: Isr, s: Core, n: nat, i: nat)
    requires i < TIMER_COUNT && Leaves(isr, s, i) && Periodic(s, i) && Ends(isr, s, n)
    ensures var s', t := Advanced(isr, s, n), s.timers[i];
            && Leaves(isr, s', i) && Periodic(s', i)
            && Ran(s'.log, i) == Ran(s.log, i) + Quot(t.tc + n, t.mr0)
            && s'.timers[i] == t.(tc := Rem(t.tc + n, t.mr0))
  {
    hide Turns, Ran, Entries, Quot, Rem, Periodic;
    var k := EndsAfter(isr, s, n);
    AdvancedIs(isr, s, n, k);
    TurnsOfPeriodic(isr, s, n, k, i);
  }

  /* ----- In the terms of the registers ----- */

  /** One timer running alone with handlers that do nothing: the scheduler always comes to an end, calls the timer's
      handler each time its counter reaches MR0, and starts the counter over. */
  lemma TimerRunsAlone(isr: Isr, s: Core, i: nat, n: nat)
    requires s.Valid() && i < 3 && s.pending == [] && forall j, core :: isr(j, core) == []
    requires s.nvic.globalEnabled && s.nvic.enabledIrqs[i + 17]
    requires forall j | 0 <= j < 3 && j != i :: !s.timers[j].running
    requires var t := s.timers[i];
             t.running && t.interruptOnMatch && t.resetOnMatch && !t.stopOnMatch && t.tc < t.mr0
    ensures Ends(isr, s, n)
    ensures var s', t := Advanced(isr, s, n), s.timers[i];
            && Ran(s'.log, i) == Ran(s.log, i) + (t.tc + n) / t.mr0
            && s'.timers[i] == t.(tc := (t.tc + n) % t.mr0)
  {
    hide Ends, Advanced, Ran, Entries;
    MatchEnabledExactlyWhen(s, i);
    NothingPendingIsCalm(isr, s, i);
    ReadyIsGood(isr, s, n);
    AdvancedIsStepped(isr, s, n);
    AdvancingCallsPeriodically(isr, s, n, i);
  }

  lemma NothingPendingIsCalm(isr: Isr, s: Core, i: nat)
    requires s.Valid() && i < 3 && s.pending == [] && forall j, core :: isr(j, core) == []
    requires forall j | 0 <= j < 3 && j != i :: !s.timers[j].running
    requires s.timers[i].resetOnMatch
    ensures Ready(isr, s) && Leaves(isr, s, i) && Entries(s.pending, i) == 0
  {
  }
}
