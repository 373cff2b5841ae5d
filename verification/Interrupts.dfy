/** The interrupt controller of the simulated MCU: interrupts are queued in raise order and dispatched by
    (NVIC priority, raise sequence). A handler may raise further interrupts, reprogram the NVIC and call the
    dispatcher again from inside itself. */
module Interrupts {

  const WORD_RANGE: nat := 0x1_0000_0000
  const IRQ_SLOTS: nat := 64
  const TIMER_COUNT: nat := 3

  type Word = n: nat | n < WORD_RANGE

  /** The parts of an LPC17xx timer the scheduler looks at: TC, MR0, bits 0-2 of MCR and bit 0 of TCR. */
  datatype Timer = Timer(tc: Word, mr0: Word, interruptOnMatch: bool, resetOnMatch: bool, stopOnMatch: bool,
                         running: bool)

  /** Enable bits and priorities by slot; the slot of an interrupt is its number plus 16. */
  datatype Nvic = Nvic(enabledIrqs: seq<bool>, priorities: seq<Word>, globalEnabled: bool) {
    predicate Valid() {
      |enabledIrqs| == IRQ_SLOTS && |priorities| == IRQ_SLOTS
    }

    static predicate HasSlot(irq: int) {
      0 <= irq + 16 < IRQ_SLOTS
    }

    predicate Enabled(irq: int)
      requires Valid()
    {
      HasSlot(irq) && enabledIrqs[irq + 16]
    }

    predicate Eligible(irq: int)
      requires Valid()
    {
      globalEnabled && Enabled(irq)
    }

    function Priority(irq: int): Word
      requires Valid()
    {
      if HasSlot(irq) then priorities[irq + 16] else 0
    }

    function WithEnabled(irq: int, on: bool): Nvic
      requires Valid()
    {
      if HasSlot(irq) then this.(enabledIrqs := enabledIrqs[irq + 16 := on]) else this
    }

    function WithPriority(irq: int, level: Word): Nvic
      requires Valid()
    {
      if HasSlot(irq) then this.(priorities := priorities[irq + 16 := level]) else this
    }
  }

  /** A store to one of a timer's registers, by the bits the scheduler looks at. */
  datatype Store =
    | Control(enable: bool, reset: bool)
    | MatchControl(interrupt: bool, reset: bool, stop: bool)
    | Match(value: Word)
    | Count(value: Word)

  /** A control store with the reset bit clears the counter at once; its enable bit starts or stops the timer. */
  function Stored(t: Timer, store: Store): Timer {
    match store
    case Control(enable, reset) => t.(running := enable, tc := if reset then 0 else t.tc)
    case MatchControl(interrupt, reset, stop) =>
      t.(interruptOnMatch := interrupt, resetOnMatch := reset, stopOnMatch := stop)
    case Match(value) => t.(mr0 := value)
    case Count(value) => t.(tc := value)
  }

  function StoredAll(t: Timer, stores: seq<Store>): Timer
    decreases |stores|
  {
    if stores == [] then t else StoredAll(Stored(t, stores[0]), stores[1..])
  }

  /** What one run of a handler does, as the tree of its calls into the controller and of its stores to the NVIC and
      to the registers of a timer. */
  datatype Action =
    | Raise(irq: int, id: nat, body: seq<Action>)
    | DispatchNext
    | DispatchAll
    | SetEnabled(irq: int, on: bool)
    | SetPriority(irq: int, level: Word)
    | SetGlobal(on: bool)
    | StoreTimer(timer: nat, stores: seq<Store>)

  datatype Handler = TimerMatch(timer: nat) | Device(id: nat, body: seq<Action>)

  datatype Pending = Pending(irq: int, sequence: nat, handler: Handler)

  /** One handler call: the raise sequence number it answers, which handler it was, and the virtual time. */
  datatype Call = Call(sequence: nat, handler: Handler, atUs: nat)

  /** The TIMERn_IRQHandler bodies: what they do is an arbitrary function of the timer and of the machine as
      the handler finds it, its registers and all earlier calls included. */
  type Isr = (nat, Core) -> seq<Action>

  datatype Core = Core(timers: seq<Timer>, nvic: Nvic, pending: seq<Pending>, nextSequence: nat,
                       clockUs: nat, remainder: nat, coreClock: Word, log: seq<Call>)
  {
    ghost predicate Valid() {
      && |timers| == 4
      && nvic.Valid()
      && forall k | 0 <= k < |pending| :: pending[k].handler.TimerMatch? ==> pending[k].handler.timer < TIMER_COUNT
    }
  }

  /* ----- Dispatch order ----- */

  predicate Before(nvic: Nvic, p: Pending, q: Pending)
    requires nvic.Valid()
  {
    var lhs, rhs := nvic.Priority(p.irq), nvic.Priority(q.irq);
    lhs < rhs || (lhs == rhs && p.sequence < q.sequence)
  }

  /** The controller's registers may let an interrupt run: it is enabled in its slot, which is its number plus 16. */
  ghost predicate MayRun(nvic: Nvic, irq: int)
    requires |nvic.enabledIrqs| == 64
  {
    nvic.globalEnabled && 0 <= irq + 16 < 64 && nvic.enabledIrqs[irq + 16]
  }

  /** The level stored in an interrupt's slot; a lower level is more urgent. */
  ghost function StoredLevel(nvic: Nvic, irq: int): Word
    requires |nvic.priorities| == 64
  {
    if 0 <= irq + 16 < 64 then nvic.priorities[irq + 16] else 0
  }

  /** On the stored levels: a lower one, or the same one and raised earlier. */
  ghost predicate MoreUrgent(nvic: Nvic, p: Pending, q: Pending)
    requires |nvic.priorities| == 64
  {
    || StoredLevel(nvic, p.irq) < StoredLevel(nvic, q.irq)
    || (StoredLevel(nvic, p.irq) == StoredLevel(nvic, q.irq) && p.sequence < q.sequence)
  }

  /** The index dispatched next among the first n pending interrupts, or -1. */
  function Select(nvic: Nvic, pending: seq<Pending>, n: nat): (k: int)
    requires nvic.Valid() && n <= |pending|
    ensures -1 <= k < n
    ensures k == -1 <==> forall j | 0 <= j < n :: !nvic.Eligible(pending[j].irq)
    ensures k >= 0 ==> nvic.Eligible(pending[k].irq)
    ensures k >= 0 ==> forall j | 0 <= j < n && nvic.Eligible(pending[j].irq) :: !Before(nvic, pending[j], pending[k])
  {
    if n == 0 then -1
    else
      var best := Select(nvic, pending, n - 1);
      if nvic.Eligible(pending[n - 1].irq) && (best == -1 || Before(nvic, pending[n - 1], pending[best]))
      then n - 1 else best
  }

  function Best(s: Core): (k: int)
    requires s.nvic.Valid()
    ensures -1 <= k < |s.pending|
    ensures k == -1 <==> forall j | 0 <= j < |s.pending| :: !s.nvic.Eligible(s.pending[j].irq)
    ensures k >= 0 ==> s.nvic.Eligible(s.pending[k].irq) && MayRun(s.nvic, s.pending[k].irq)
    ensures k >= 0 ==>
              forall j | 0 <= j < |s.pending| && MayRun(s.nvic, s.pending[j].irq) ::
                !MoreUrgent(s.nvic, s.pending[j], s.pending[k])
  {
    Select(s.nvic, s.pending, |s.pending|)
  }

  function Without<T>(q: seq<T>, k: nat): seq<T>
    requires k < |q|
  {
    q[..k] + q[k + 1..]
  }

  /* ----- Weights: why nested dispatching ends ----- */

  function BodyWeight(body: seq<Action>): nat {
    if body == [] then 0 else ActionWeight(body[0]) + BodyWeight(body[1..])
  }

  function ActionWeight(a: Action): (w: nat)
    ensures w >= 1
  {
    match a
    case Raise(_, _, body) => 2 + BodyWeight(body)
    case _ => 1
  }

  function PendingWeight(q: seq<Pending>): nat {
    if q == [] then 0
    else (if q[0].handler.Device? then 1 + BodyWeight(q[0].handler.body) else 0) + PendingWeight(q[1..])
  }

  function TimerEntries(q: seq<Pending>): nat {
    if q == [] then 0 else (if q[0].handler.TimerMatch? then 1 else 0) + TimerEntries(q[1..])
  }

  lemma {:induction false} WeightsOfConcat(a: seq<Pending>, b: seq<Pending>)
    ensures PendingWeight(a + b) == PendingWeight(a) + PendingWeight(b)
    ensures TimerEntries(a + b) == TimerEntries(a) + TimerEntries(b)
  {
    if a == [] {
      assert a + b == b;
    } else {
      assert (a + b)[1..] == a[1..] + b;
      WeightsOfConcat(a[1..], b);
    }
  }

  lemma WeightsOfAppend(q: seq<Pending>, p: Pending)
    ensures p.handler.Device? ==>
              && PendingWeight(q + [p]) == PendingWeight(q) + 1 + BodyWeight(p.handler.body)
              && TimerEntries(q + [p]) == TimerEntries(q)
  {
    WeightsOfConcat(q, [p]);
    assert [p][1..] == [];
  }

  lemma WeightsWithout(q: seq<Pending>, k: nat)
    requires k < |q|
    ensures q[k].handler.Device? ==>
              && PendingWeight(q) == PendingWeight(Without(q, k)) + 1 + BodyWeight(q[k].handler.body)
              && TimerEntries(q) == TimerEntries(Without(q, k))
    ensures q[k].handler.TimerMatch? ==>
              && PendingWeight(q) == PendingWeight(Without(q, k))
              && TimerEntries(q) == TimerEntries(Without(q, k)) + 1
  {
    WeightsOfConcat(q[..k], q[k + 1..]);
    WeightsOfConcat([q[k]], q[k + 1..]);
    WeightsOfConcat(q[..k], [q[k]] + q[k + 1..]);
    assert q == q[..k] + ([q[k]] + q[k + 1..]);
  }

  ghost predicate Shrunk(q: seq<Pending>, slack: int, q': seq<Pending>) {
    || TimerEntries(q') < TimerEntries(q)
    || (TimerEntries(q') == TimerEntries(q) && PendingWeight(q') <= PendingWeight(q) + slack)
  }

  /* ----- Running handlers ----- */

  function WithStores(timers: seq<Timer>, i: nat, stores: seq<Store>): (timers': seq<Timer>)
    ensures |timers'| == |timers|
  {
    if i < |timers| then timers[i := StoredAll(timers[i], stores)] else timers
  }

  ghost function Push(s: Core, irq: int, handler: Handler): (s': Core)
    requires s.Valid()
    requires handler.TimerMatch? ==> handler.timer < TIMER_COUNT
    ensures s'.Valid()
  {
    s.(pending := s.pending + [Pending(irq, s.nextSequence, handler)], nextSequence := s.nextSequence + 1)
  }

  ghost function RunAction(isr: Isr, a: Action, s: Core): (s': Core)
    requires s.Valid()
    ensures s'.Valid() && Shrunk(s.pending, ActionWeight(a) - 1, s'.pending)
    decreases TimerEntries(s.pending), PendingWeight(s.pending) + ActionWeight(a), 0
  {
    match a
    case Raise(irq, id, body) =>
      (WeightsOfAppend(s.pending, Pending(irq, s.nextSequence, Device(id, body)));
       Push(s, irq, Device(id, body)))
    case DispatchNext => TryDispatchNext(isr, s)
    case DispatchAll => RunAll(isr, s)
    case SetEnabled(irq, on) => s.(nvic := s.nvic.WithEnabled(irq, on))
    case SetPriority(irq, level) => s.(nvic := s.nvic.WithPriority(irq, level))
    case SetGlobal(on) => s.(nvic := s.nvic.(globalEnabled := on))
    case StoreTimer(i, stores) => s.(timers := WithStores(s.timers, i, stores))
  }

  ghost function RunBody(isr: Isr, body: seq<Action>, s: Core): (s': Core)
    requires s.Valid()
    ensures s'.Valid() && Shrunk(s.pending, BodyWeight(body), s'.pending)
    decreases TimerEntries(s.pending), PendingWeight(s.pending) + BodyWeight(body), 1
  {
    if body == [] then s else RunBody(isr, body[1..], RunAction(isr, body[0], s))
  }

  ghost function Taken(s: Core, k: nat): (s': Core)
    requires s.Valid() && k < |s.pending|
    ensures s'.Valid()
  {
    s.(pending := Without(s.pending, k),
       log := s.log + [Call(s.pending[k].sequence, s.pending[k].handler, s.clockUs)])
  }

  ghost function AtMatch(s: Core, i: nat): (s': Core)
    requires s.Valid() && i < TIMER_COUNT
    ensures s'.Valid()
  {
    s.(timers := s.timers[i := s.timers[i].(tc := s.timers[i].mr0)])
  }

  ghost function AfterMatch(s: Core, i: nat): (s': Core)
    requires s.Valid() && i < TIMER_COUNT
    ensures s'.Valid()
  {
    var t := s.timers[i];
    var t1 := if t.resetOnMatch then t.(tc := 0) else t;
    s.(timers := s.timers[i := if t.stopOnMatch then t1.(running := false) else t1])
  }

  /** The whole run of one taken handler. */
  ghost function RunHandler(isr: Isr, h: Handler, s: Core): (s': Core)
    requires s.Valid() && (h.TimerMatch? ==> h.timer < TIMER_COUNT)
    ensures s'.Valid()
    ensures h.Device? ==> Shrunk(s.pending, BodyWeight(h.body), s'.pending)
    ensures h.TimerMatch? ==> TimerEntries(s'.pending) <= TimerEntries(s.pending)
    decreases TimerEntries(s.pending) + (if h.TimerMatch? then 1 else 0),
              PendingWeight(s.pending) + (if h.Device? then BodyWeight(h.body) else 0), 2
  {
    match h
    case Device(_, body) => RunBody(isr, body, s)
    case TimerMatch(i) => AfterMatch(RunBody(isr, isr(i, AtMatch(s, i)), AtMatch(s, i)), i)
  }

  ghost function TryDispatchNext(isr: Isr, s: Core): (s': Core)
    requires s.Valid()
    ensures s'.Valid() && Shrunk(s.pending, if Best(s) == -1 then 0 else -1, s'.pending)
    decreases TimerEntries(s.pending), PendingWeight(s.pending), 3
  {
    var k := Best(s);
    if k == -1 then s
    else
      WeightsWithout(s.pending, k);
      RunHandler(isr, s.pending[k].handler, Taken(s, k))
  }

  ghost function RunAll(isr: Isr, s: Core): (s': Core)
    requires s.Valid()
    ensures s'.Valid() && Shrunk(s.pending, 0, s'.pending)
    ensures Best(s') == -1
    decreases TimerEntries(s.pending), PendingWeight(s.pending), 4
  {
    if Best(s) == -1 then s else RunAll(isr, TryDispatchNext(isr, s))
  }

  /* ----- Every raised interrupt runs at most once, and none is lost ----- */

  type Ticket = (nat, Handler)

  ghost function PendingTickets(q: seq<Pending>): multiset<Ticket> {
    if q == [] then multiset{}
    else PendingTickets(q[..|q| - 1]) + multiset{(q[|q| - 1].sequence, q[|q| - 1].handler)}
  }

  ghost function LogTickets(log: seq<Call>): multiset<Ticket> {
    if log == [] then multiset{}
    else LogTickets(log[..|log| - 1]) + multiset{(log[|log| - 1].sequence, log[|log| - 1].handler)}
  }

  /** The tickets handed out by raising the given handlers one after the other. */
  ghost function Issued(raised: seq<Handler>): multiset<Ticket> {
    if raised == [] then multiset{}
    else Issued(raised[..|raised| - 1]) + multiset{(|raised| - 1, raised[|raised| - 1])}
  }

  ghost predicate InRaiseOrder(q: seq<Pending>) {
    forall i, j | 0 <= i < j < |q| :: q[i].sequence < q[j].sequence
  }

  /** raised[n] is the handler raised with sequence number n; each ticket is pending or logged, once. */
  ghost predicate Ledger(s: Core, raised: seq<Handler>) {
    && |raised| == s.nextSequence
    && PendingTickets(s.pending) + LogTickets(s.log) == Issued(raised)
    && InRaiseOrder(s.pending)
  }

  lemma Swapped(a: multiset<Ticket>, b: multiset<Ticket>, c: multiset<Ticket>)
    ensures a + b + c == a + c + b
  {
  }

  lemma TicketsOfAppend(q: seq<Pending>, p: Pending)
    ensures PendingTickets(q + [p]) == PendingTickets(q) + multiset{(p.sequence, p.handler)}
  {
    assert (q + [p])[..|q|] == q;
  }

  lemma LogTicketsOfAppend(log: seq<Call>, c: Call)
    ensures LogTickets(log + [c]) == LogTickets(log) + multiset{(c.sequence, c.handler)}
  {
    assert (log + [c])[..|log|] == log;
  }

  lemma IssuedOfAppend(raised: seq<Handler>, h: Handler)
    ensures Issued(raised + [h]) == Issued(raised) + multiset{(|raised|, h)}
  {
    assert (raised + [h])[..|raised|] == raised;
  }

  lemma {:induction false} TicketsWithout(q: seq<Pending>, k: nat)
    requires k < |q|
    ensures PendingTickets(q) == PendingTickets(Without(q, k)) + multiset{(q[k].sequence, q[k].handler)}
  {
    hide PendingTickets;
    var front, last := q[..|q| - 1], q[|q| - 1];
    assert q == front + [last];
    TicketsOfAppend(front, last);
    if k == |front| {
      assert Without(q, k) == front;
    } else {
      TicketsWithout(front, k);
      assert Without(q, k) == Without(front, k) + [last];
      TicketsOfAppend(Without(front, k), last);
      Swapped(PendingTickets(Without(front, k)), multiset{(q[k].sequence, q[k].handler)},
              multiset{(last.sequence, last.handler)});
    }
  }

  lemma {:induction false} IssuedOnce(raised: seq<Handler>, t: Ticket)
    ensures Issued(raised)[t] == if t.0 < |raised| && raised[t.0] == t.1 then 1 else 0
  {
    if raised != [] {
      IssuedOnce(raised[..|raised| - 1], t);
    }
  }

  lemma {:induction false} PendingHasTicket(q: seq<Pending>, k: nat)
    requires k < |q|
    ensures (q[k].sequence, q[k].handler) in PendingTickets(q)
  {
    TicketsWithout(q, k);
  }

  lemma {:induction false} PushKeepsLedger(s: Core, raised: seq<Handler>, irq: int, h: Handler)
    requires s.Valid() && Ledger(s, raised) && (h.TimerMatch? ==> h.timer < TIMER_COUNT)
    ensures Ledger(Push(s, irq, h), raised + [h])
  {
    hide PendingTickets, LogTickets, Issued;
    TicketsOfAppend(s.pending, Pending(irq, s.nextSequence, h));
    IssuedOfAppend(raised, h);
    Swapped(PendingTickets(s.pending), multiset{(|raised|, h)}, LogTickets(s.log));
    forall i | 0 <= i < |s.pending|
      ensures s.pending[i].sequence < s.nextSequence
    {
      PendingHasTicket(s.pending, i);
      IssuedOnce(raised, (s.pending[i].sequence, s.pending[i].handler));
    }
  }

  lemma TakenKeepsLedger(s: Core, raised: seq<Handler>, k: nat)
    requires s.Valid() && Ledger(s, raised) && k < |s.pending|
    ensures Ledger(Taken(s, k), raised)
  {
    hide PendingTickets, LogTickets, Issued;
    var p := s.pending[k];
    TicketsWithout(s.pending, k);
    LogTicketsOfAppend(s.log, Call(p.sequence, p.handler, s.clockUs));
    Swapped(PendingTickets(Without(s.pending, k)), multiset{(p.sequence, p.handler)}, LogTickets(s.log));
  }

  /** The handlers raised while running are device handlers appended to the ledger. */
  ghost predicate Extends(raised': seq<Handler>, raised: seq<Handler>) {
    raised <= raised' && forall n | |raised| <= n < |raised'| :: raised'[n].Device?
  }

  lemma {:induction false} RunActionLedger(isr: Isr, a: Action, s: Core, raised: seq<Handler>)
    returns (raised': seq<Handler>)
    requires s.Valid() && Ledger(s, raised)
    ensures var s' := RunAction(isr, a, s); Ledger(s', raised') && Extends(raised', raised) && s.log <= s'.log
    decreases TimerEntries(s.pending), PendingWeight(s.pending) + ActionWeight(a), 0
  {
    hide PendingTickets, LogTickets, Issued;
    raised' := raised;
    match a {
      case Raise(irq, id, body) =>
        PushKeepsLedger(s, raised, irq, Device(id, body));
        raised' := raised + [Device(id, body)];
      case DispatchNext => raised' := DispatchNextLedger(isr, s, raised);
      case DispatchAll => raised' := RunAllLedger(isr, s, raised);
      case _ =>
    }
  }

  lemma {:induction false} RunBodyLedger(isr: Isr, body: seq<Action>, s: Core, raised: seq<Handler>)
    returns (raised': seq<Handler>)
    requires s.Valid() && Ledger(s, raised)
    ensures var s' := RunBody(isr, body, s); Ledger(s', raised') && Extends(raised', raised) && s.log <= s'.log
    decreases TimerEntries(s.pending), PendingWeight(s.pending) + BodyWeight(body), 1
  {
    raised' := raised;
    if body != [] {
      raised' := RunActionLedger(isr, body[0], s, raised);
      raised' := RunBodyLedger(isr, body[1..], RunAction(isr, body[0], s), raised');
    }
  }

  lemma {:induction false} DispatchNextLedger(isr: Isr, s: Core, raised: seq<Handler>) returns (raised': seq<Handler>)
    requires s.Valid() && Ledger(s, raised)
    ensures var s' := TryDispatchNext(isr, s);
            && Ledger(s', raised') && Extends(raised', raised) && s.log <= s'.log
            && (Best(s) != -1 ==> Taken(s, Best(s)).log <= s'.log)
    decreases TimerEntries(s.pending), PendingWeight(s.pending), 3
  {
    raised' := raised;
    var k := Best(s);
    if k != -1 {
      WeightsWithout(s.pending, k);
      TakenKeepsLedger(s, raised, k);
      var s1 := Taken(s, k);
      match s.pending[k].handler {
        case Device(_, body) => raised' := RunBodyLedger(isr, body, s1, raised);
        case TimerMatch(i) => raised' := RunBodyLedger(isr, isr(i, AtMatch(s1, i)), AtMatch(s1, i), raised);
      }
    }
  }

  lemma {:induction false} RunAllLedger(isr: Isr, s: Core, raised: seq<Handler>) returns (raised': seq<Handler>)
    requires s.Valid() && Ledger(s, raised)
    ensures var s' := RunAll(isr, s); Ledger(s', raised') && Extends(raised', raised) && s.log <= s'.log
    decreases TimerEntries(s.pending), PendingWeight(s.pending), 4
  {
    hide PendingTickets, LogTickets, Issued, InRaiseOrder;
    raised' := raised;
    if Best(s) != -1 {
      raised' := DispatchNextLedger(isr, s, raised);
      raised' := RunAllLedger(isr, TryDispatchNext(isr, s), raised');
    }
  }

  lemma {:induction false} Logged(log: seq<Call>, i: nat)
    requires i < |log|
    ensures (log[i].sequence, log[i].handler) in LogTickets(log)
  {
    if i < |log| - 1 {
      Logged(log[..|log| - 1], i);
    }
  }

  lemma {:induction false} LoggedTwice(log: seq<Call>, i: nat, j: nat)
    requires i < j < |log|
    ensures var t := (log[i].sequence, log[i].handler);
            t == (log[j].sequence, log[j].handler) ==> LogTickets(log)[t] >= 2
  {
    if j < |log| - 1 {
      LoggedTwice(log[..|log| - 1], i, j);
    } else {
      Logged(log[..j], i);
    }
  }

  /** In every ledger state a raised interrupt has run at most once, with the handler it was raised with, and has
      run exactly when it is no longer pending. */
  lemma AtMostOnce(s: Core, raised: seq<Handler>)
    requires Ledger(s, raised)
    ensures forall i | 0 <= i < |s.log| ::
              s.log[i].sequence < s.nextSequence && s.log[i].handler == raised[s.log[i].sequence]
    ensures forall i, j | 0 <= i < j < |s.log| :: s.log[i].sequence != s.log[j].sequence
    ensures forall i, k | 0 <= i < |s.log| && 0 <= k < |s.pending| :: s.log[i].sequence != s.pending[k].sequence
    ensures forall n | 0 <= n < s.nextSequence ::
              (n, raised[n]) in LogTickets(s.log) <==> (n, raised[n]) !in PendingTickets(s.pending)
  {
    hide PendingTickets, LogTickets, Issued, InRaiseOrder;
    forall i | 0 <= i < |s.log|
      ensures s.log[i].sequence < s.nextSequence && s.log[i].handler == raised[s.log[i].sequence]
    {
      Logged(s.log, i);
      IssuedOnce(raised, (s.log[i].sequence, s.log[i].handler));
    }
    forall i, j | 0 <= i < j < |s.log|
      ensures s.log[i].sequence != s.log[j].sequence
    {
      Logged(s.log, i);
      Logged(s.log, j);
      LoggedTwice(s.log, i, j);
      IssuedOnce(raised, (s.log[j].sequence, s.log[j].handler));
      IssuedOnce(raised, (s.log[i].sequence, s.log[i].handler));
    }
    forall i, k | 0 <= i < |s.log| && 0 <= k < |s.pending|
      ensures s.log[i].sequence != s.pending[k].sequence
    {
      Logged(s.log, i);
      PendingHasTicket(s.pending, k);
      IssuedOnce(raised, (s.log[i].sequence, s.log[i].handler));
      IssuedOnce(raised, (s.pending[k].sequence, s.pending[k].handler));
    }
    forall n | 0 <= n < s.nextSequence
      ensures (n, raised[n]) in LogTickets(s.log) <==> (n, raised[n]) !in PendingTickets(s.pending)
    {
      IssuedOnce(raised, (n, raised[n]));
    }
  }

  /** Dispatching everything, whatever the handlers do, keeps the ledger, only adds calls to the log, and leaves
      nothing eligible pending: every raised interrupt that is eligible at the end ran exactly once. */
  lemma DispatchAllRunsEachOnce(isr: Isr, s: Core, raised: seq<Handler>) returns (raised': seq<Handler>)
    requires s.Valid() && Ledger(s, raised)
    ensures var s' := RunAll(isr, s);
            && Ledger(s', raised') && raised <= raised' && s.log <= s'.log
            && (forall i, j | 0 <= i < j < |s'.log| :: s'.log[i].sequence != s'.log[j].sequence)
            && (forall k | 0 <= k < |s'.pending| :: !s'.nvic.Eligible(s'.pending[k].irq))
            && (forall n | 0 <= n < s'.nextSequence ::
                  (n, raised'[n]) in LogTickets(s'.log) <==> (n, raised'[n]) !in PendingTickets(s'.pending))
  {
    raised' := RunAllLedger(isr, s, raised);
    AtMostOnce(RunAll(isr, s), raised');
  }

  /* ----- Passive handlers run in stable priority order ----- */

  ghost function EligiblePart(nvic: Nvic, q: seq<Pending>): multiset<Pending>
    requires nvic.Valid()
  {
    if q == [] then multiset{}
    else EligiblePart(nvic, q[..|q| - 1]) +
         (if nvic.Eligible(q[|q| - 1].irq) then multiset{q[|q| - 1]} else multiset{})
  }

  lemma {:induction false} EligibleWithout(nvic: Nvic, q: seq<Pending>, k: nat)
    requires nvic.Valid() && k < |q| && nvic.Eligible(q[k].irq)
    ensures EligiblePart(nvic, q) == EligiblePart(nvic, Without(q, k)) + multiset{q[k]}
  {
    var last := |q| - 1;
    if k == last {
      assert Without(q, k) == q[..last];
    } else {
      EligibleWithout(nvic, q[..last], k);
      assert Without(q, k)[..last - 1] == Without(q[..last], k);
    }
  }

  ghost predicate Passive(isr: Isr, s: Core) {
    && (forall i, core :: isr(i, core) == [])
    && (forall k | 0 <= k < |s.pending| :: s.pending[k].handler.Device? ==> s.pending[k].handler.body == [])
  }

  ghost function Calls(order: seq<Pending>, atUs: nat): seq<Call> {
    if order == [] then []
    else [Call(order[0].sequence, order[0].handler, atUs)] + Calls(order[1..], atUs)
  }

  lemma PassiveCall(isr: Isr, s: Core, k: nat)
    requires s.Valid() && Passive(isr, s) && k == Best(s)
    ensures var s' := TryDispatchNext(isr, s);
            && Passive(isr, s')
            && s'.pending == Without(s.pending, k) && s'.nvic == s.nvic && s'.clockUs == s.clockUs
            && s'.log == s.log + Calls([s.pending[k]], s.clockUs)
  {
    var s1 := Taken(s, k);
    match s.pending[k].handler {
      case Device(_, body) => assert body == [] && RunBody(isr, body, s1) == s1;
      case TimerMatch(i) =>
        assert isr(i, AtMatch(s1, i)) == [] && RunBody(isr, [], AtMatch(s1, i)) == AtMatch(s1, i);
    }
  }

  /** The eligible interrupts in the order repeated selection takes them. */
  ghost function SelectionOrder(nvic: Nvic, q: seq<Pending>): (order: seq<Pending>)
    requires nvic.Valid()
    ensures forall j | 0 <= j < |order| :: order[j] in q && nvic.Eligible(order[j].irq)
    decreases |q|
  {
    var k := Select(nvic, q, |q|);
    if k == -1 then [] else [q[k]] + SelectionOrder(nvic, Without(q, k))
  }

  lemma SelectedComesFirst(nvic: Nvic, q: seq<Pending>, k: nat, p: Pending)
    requires nvic.Valid() && InRaiseOrder(q)
    requires k < |q| && forall j | 0 <= j < |q| && nvic.Eligible(q[j].irq) :: !Before(nvic, q[j], q[k])
    requires p in Without(q, k) && nvic.Eligible(p.irq)
    ensures Before(nvic, q[k], p)
  {
    var m :| 0 <= m < |q| && q[m] == p && m != k;
    assert q[m].sequence != q[k].sequence;
  }

  lemma NoneEligible(nvic: Nvic, q: seq<Pending>)
    requires nvic.Valid() && forall j | 0 <= j < |q| :: !nvic.Eligible(q[j].irq)
    ensures EligiblePart(nvic, q) == multiset{}
  {
  }

  lemma {:induction false} SelectionOrderCounts(nvic: Nvic, q: seq<Pending>)
    requires nvic.Valid()
    ensures multiset(SelectionOrder(nvic, q)) == EligiblePart(nvic, q)
    decreases |q|
  {
    var k := Select(nvic, q, |q|);
    if k == -1 {
      NoneEligible(nvic, q);
    } else {
      SelectionOrderCounts(nvic, Without(q, k));
      EligibleWithout(nvic, q, k);
    }
  }

  lemma {:induction false} SelectionOrderSorts(nvic: Nvic, q: seq<Pending>)
    requires nvic.Valid() && InRaiseOrder(q)
    ensures forall i, j | 0 <= i < j < |SelectionOrder(nvic, q)| ::
              MoreUrgent(nvic, SelectionOrder(nvic, q)[i], SelectionOrder(nvic, q)[j])
    decreases |q|
  {
    var k := Select(nvic, q, |q|);
    if k != -1 {
      var rest := SelectionOrder(nvic, Without(q, k));
      SelectionOrderSorts(nvic, Without(q, k));
      forall j | 0 <= j < |rest|
        ensures MoreUrgent(nvic, q[k], rest[j])
      {
        SelectedComesFirst(nvic, q, k, rest[j]);
      }
      assert SelectionOrder(nvic, q) == [q[k]] + rest;
    }
  }

  lemma RunAllUnfolds(isr: Isr, s: Core)
    requires s.Valid()
    ensures RunAll(isr, s) == if Best(s) == -1 then s else RunAll(isr, TryDispatchNext(isr, s))
  {
  }

  lemma CallsOfFirst(p: Pending, rest: seq<Pending>, atUs: nat, log: seq<Call>)
    ensures log + Calls([p], atUs) + Calls(rest, atUs) == log + Calls([p] + rest, atUs)
  {
    assert ([p] + rest)[1..] == rest;
  }

  lemma {:induction false} PassiveRunIsSelection(isr: Isr, s: Core)
    requires s.Valid() && Passive(isr, s)
    ensures RunAll(isr, s).log == s.log + Calls(SelectionOrder(s.nvic, s.pending), s.clockUs)
    decreases |s.pending|
  {
    RunAllUnfolds(isr, s);
    if Best(s) != -1 {
      PassiveCall(isr, s, Best(s));
      var s1 := TryDispatchNext(isr, s);
      PassiveRunIsSelection(isr, s1);
      CallsOfFirst(s.pending[Best(s)], SelectionOrder(s.nvic, s1.pending), s.clockUs, s.log);
    }
  }

  /** With handlers that touch neither the controller nor the NVIC, the calls made are the interrupts that may run, each
      once, lower stored levels first and within one level in the order they were raised. */
  lemma PassiveRunOrder(isr: Isr, s: Core) returns (order: seq<Pending>)
    requires s.Valid() && Passive(isr, s) && InRaiseOrder(s.pending)
    ensures multiset(order) == EligiblePart(s.nvic, s.pending)
    ensures forall p: Pending :: p in order <==> p in s.pending && MayRun(s.nvic, p.irq)
    ensures forall i, j | 0 <= i < j < |order| ::
              && MayRun(s.nvic, order[i].irq) && MayRun(s.nvic, order[j].irq)
              && var first, second := s.nvic.priorities[order[i].irq + 16], s.nvic.priorities[order[j].irq + 16];
                 first < second || (first == second && order[i].sequence < order[j].sequence)
    ensures RunAll(isr, s).log == s.log + Calls(order, s.clockUs)
  {
    hide RunAll, SelectionOrder, EligiblePart;
    order := SelectionOrder(s.nvic, s.pending);
    SelectionOrderCounts(s.nvic, s.pending);
    SelectionOrderSorts(s.nvic, s.pending);
    PassiveRunIsSelection(isr, s);
    forall p: Pending ensures p in order <==> p in s.pending && MayRun(s.nvic, p.irq) {
      assert p in order <==> p in multiset(order);
      EligibleMembers(s.nvic, s.pending, p);
    }
  }

  lemma {:induction false} EligibleMembers(nvic: Nvic, q: seq<Pending>, p: Pending)
    requires nvic.Valid()
    ensures p in EligiblePart(nvic, q) <==> p in q && MayRun(nvic, p.irq)
  {
    if q != [] {
      EligibleMembers(nvic, q[..|q| - 1], p);
      assert q == q[..|q| - 1] + [q[|q| - 1]];
    }
  }

  /* ----- In the terms of the registers ----- */

  /** Dispatching one interrupt logs the most urgent of those that may run, the one raised first among equals, before
      anything its handler does; it does nothing exactly when none may run. */
  lemma DispatchTakesTheMostUrgent(isr: Isr, s: Core, raised: seq<Handler>) returns (k: int)
    requires s.Valid() && Ledger(s, raised)
    ensures -1 <= k < |s.pending|
    ensures k == -1 <==> forall j | 0 <= j < |s.pending| :: !MayRun(s.nvic, s.pending[j].irq)
    ensures k == -1 ==> TryDispatchNext(isr, s) == s
    ensures k >= 0 ==>
              && MayRun(s.nvic, s.pending[k].irq)
              && s.log + [Call(s.pending[k].sequence, s.pending[k].handler, s.clockUs)] <= TryDispatchNext(isr, s).log
              && forall j | 0 <= j < |s.pending| && j != k && MayRun(s.nvic, s.pending[j].irq) ::
                   MoreUrgent(s.nvic, s.pending[k], s.pending[j])
  {
    hide RunHandler, PendingTickets, LogTickets, Issued, Best;
    k := Best(s);
    var _ := DispatchNextLedger(isr, s, raised);
  }

  /** Two interrupts raised one after the other on a quiet controller run in the order of their levels, and in the order
      they were raised when their levels are equal. */
  lemma TwoRunByLevel(isr: Isr, s: Core, a: int, b: int, first: nat, second: nat)
    requires s.Valid() && s.pending == [] && forall i, core :: isr(i, core) == []
    requires 0 <= a + 16 < 64 && 0 <= b + 16 < 64
    requires s.nvic.globalEnabled && s.nvic.enabledIrqs[a + 16] && s.nvic.enabledIrqs[b + 16]
    ensures var s' := RunAll(isr, Push(Push(s, a, Device(first, [])), b, Device(second, [])));
            var callA := Call(s.nextSequence, Device(first, []), s.clockUs);
            var callB := Call(s.nextSequence + 1, Device(second, []), s.clockUs);
            s'.log == s.log + if s.nvic.priorities[a + 16] <= s.nvic.priorities[b + 16] then [callA, callB]
                              else [callB, callA]
  {
    hide RunAll, EligiblePart, Calls, MayRun, Push, Passive, InRaiseOrder;
    var p, q := Pending(a, s.nextSequence, Device(first, [])), Pending(b, s.nextSequence + 1, Device(second, []));
    var s2 := Push(Push(s, a, Device(first, [])), b, Device(second, []));
    TwoRaised(isr, s, a, b, first, second);
    TwoRunInOrder(isr, s2, p, q);
    CallsOfTwo(p, q, s.clockUs);
    CallsOfTwo(q, p, s.clockUs);
  }

  lemma TwoRunInOrder(isr: Isr, s: Core, p: Pending, q: Pending)
    requires s.Valid() && Passive(isr, s) && s.pending == [p, q] && p.sequence < q.sequence
    requires 0 <= p.irq + 16 < 64 && 0 <= q.irq + 16 < 64
    requires s.nvic.globalEnabled && s.nvic.enabledIrqs[p.irq + 16] && s.nvic.enabledIrqs[q.irq + 16]
    ensures var order := if s.nvic.priorities[p.irq + 16] <= s.nvic.priorities[q.irq + 16] then [p, q] else [q, p];
            RunAll(isr, s).log == s.log + Calls(order, s.clockUs)
  {
    hide RunAll, EligiblePart, Calls, MayRun, Passive;
    SlotsMayRun(s.nvic, p.irq, q.irq);
    var order := PassiveRunOrder(isr, s);
    OrderOfTwo(s.nvic, order, p, q);
  }

  lemma OrderOfTwo(nvic: Nvic, order: seq<Pending>, p: Pending, q: Pending)
    requires nvic.Valid() && MayRun(nvic, p.irq) && MayRun(nvic, q.irq) && p.sequence < q.sequence
    requires multiset(order) == EligiblePart(nvic, [p, q])
    requires forall i, j | 0 <= i < j < |order| ::
               && MayRun(nvic, order[i].irq) && MayRun(nvic, order[j].irq)
               && var first, second := nvic.priorities[order[i].irq + 16], nvic.priorities[order[j].irq + 16];
                  first < second || (first == second && order[i].sequence < order[j].sequence)
    ensures order == if nvic.priorities[p.irq + 16] <= nvic.priorities[q.irq + 16] then [p, q] else [q, p]
  {
    hide EligiblePart;
    TwoMembers(nvic, order, p, q);
    assert order[0] == p || order[0] == q;
  }

  lemma TwoRaised(isr: Isr, s: Core, a: int, b: int, first: nat, second: nat)
    requires s.Valid() && s.pending == [] && forall i, core :: isr(i, core) == []
    ensures var s2 := Push(Push(s, a, Device(first, [])), b, Device(second, []));
            && s2.pending == [Pending(a, s.nextSequence, Device(first, [])),
                              Pending(b, s.nextSequence + 1, Device(second, []))]
            && s2.nvic == s.nvic && s2.log == s.log && s2.clockUs == s.clockUs
            && Passive(isr, s2) && InRaiseOrder(s2.pending)
  {
  }

  lemma SlotsMayRun(nvic: Nvic, a: int, b: int)
    requires nvic.Valid() && 0 <= a + 16 < 64 && 0 <= b + 16 < 64 && nvic.globalEnabled
    requires nvic.enabledIrqs[a + 16] && nvic.enabledIrqs[b + 16]
    ensures MayRun(nvic, a) && MayRun(nvic, b)
  {
  }

  lemma TwoMembers(nvic: Nvic, order: seq<Pending>, p: Pending, q: Pending)
    requires nvic.Valid() && MayRun(nvic, p.irq) && MayRun(nvic, q.irq) && p != q
    requires multiset(order) == EligiblePart(nvic, [p, q])
    ensures order == [p, q] || order == [q, p]
  {
    hide EligiblePart, MayRun;
    EligibleTwo(nvic, p, q);
    assert |order| == |multiset(order)| == 2;
    assert order == [order[0], order[1]];
    assert multiset(order) == multiset{order[0], order[1]};
    assert order[0] in multiset{p, q} && order[1] in multiset{p, q};
    assert p in multiset{order[0], order[1]} && q in multiset{order[0], order[1]};
  }

  lemma EligibleTwo(nvic: Nvic, p: Pending, q: Pending)
    requires nvic.Valid() && MayRun(nvic, p.irq) && MayRun(nvic, q.irq)
    ensures EligiblePart(nvic, [p, q]) == multiset{p, q}
  {
    assert [p, q][..1] == [p] && [p][..0] == [];
    assert EligiblePart(nvic, [p]) == multiset{p};
  }

  lemma CallsOfTwo(p: Pending, q: Pending, atUs: nat)
    ensures Calls([p, q], atUs) == [Call(p.sequence, p.handler, atUs), Call(q.sequence, q.handler, atUs)]
  {
    assert [p, q][1..] == [q] && [q][1..] == [];
    assert Calls([q], atUs) == [Call(q.sequence, q.handler, atUs)] + Calls([], atUs);
  }

  /** Raising puts an interrupt behind all others under the next sequence number, and nothing besides. */
  lemma RaisedBehindTheOthers(isr: Isr, s: Core, irq: int, id: nat, body: seq<Action>)
    requires s.Valid()
    ensures RunAction(isr, Raise(irq, id, body), s)
            == s.(pending := s.pending + [Pending(irq, s.nextSequence, Device(id, body))],
                  nextSequence := s.nextSequence + 1)
  {
    hide TryDispatchNext, RunAll, RunBody, WithStores;
  }

  /** What a handler's stores to the interrupt registers change, and nothing besides; a store to a slot that does not
      exist changes nothing. */
  lemma InterruptStores(isr: Isr, s: Core, irq: int, on: bool, level: Word)
    requires s.Valid()
    ensures RunAction(isr, SetGlobal(on), s) == s.(nvic := Nvic(s.nvic.enabledIrqs, s.nvic.priorities, on))
    ensures RunAction(isr, SetEnabled(irq, on), s) == s.(nvic := EnabledAt(s.nvic, irq, on))
    ensures RunAction(isr, SetPriority(irq, level), s) == s.(nvic := LevelAt(s.nvic, irq, level))
  {
    hide TryDispatchNext, RunAll, RunBody, Push, WithStores;
    SlotStores(s.nvic, irq, on, level);
    hide EnabledAt, LevelAt;
  }

  /** The registers with one enable bit set or cleared. */
  ghost function EnabledAt(n: Nvic, irq: int, on: bool): Nvic
    requires |n.enabledIrqs| == 64
  {
    Nvic(if 0 <= irq + 16 < 64 then n.enabledIrqs[irq + 16 := on] else n.enabledIrqs, n.priorities, n.globalEnabled)
  }

  /** The registers with one level stored. */
  ghost function LevelAt(n: Nvic, irq: int, level: Word): Nvic
    requires |n.priorities| == 64
  {
    Nvic(n.enabledIrqs, if 0 <= irq + 16 < 64 then n.priorities[irq + 16 := level] else n.priorities, n.globalEnabled)
  }

  lemma SlotStores(n: Nvic, irq: int, on: bool, level: Word)
    requires n.Valid()
    ensures n.WithEnabled(irq, on) == EnabledAt(n, irq, on) && n.WithPriority(irq, level) == LevelAt(n, irq, level)
  {
  }

  /** A handler's stores to a timer take effect one after the other, each on its own fields; a control store with the
      reset bit clears the counter, and one to a timer that does not exist changes nothing. */
  lemma {:induction false} TimerStores(isr: Isr, s: Core, i: nat, stores: seq<Store>, last: Store)
    requires s.Valid()
    ensures RunAction(isr, StoreTimer(i, []), s) == s
    ensures i >= 4 ==> RunAction(isr, StoreTimer(i, stores), s) == s
    ensures i < 4 ==>
              var before := RunAction(isr, StoreTimer(i, stores), s);
              var t := before.timers[i];
              var t' := match last
                        case Control(enable, reset) =>
                          Timer(if reset then 0 else t.tc, t.mr0, t.interruptOnMatch, t.resetOnMatch, t.stopOnMatch,
                                enable)
                        case MatchControl(interrupt, reset, stop) =>
                          Timer(t.tc, t.mr0, interrupt, reset, stop, t.running)
                        case Match(value) =>
                          Timer(t.tc, value, t.interruptOnMatch, t.resetOnMatch, t.stopOnMatch, t.running)
                        case Count(value) =>
                          Timer(value, t.mr0, t.interruptOnMatch, t.resetOnMatch, t.stopOnMatch, t.running);
              RunAction(isr, StoreTimer(i, stores + [last]), s) == before.(timers := before.timers[i := t'])
  {
    if i < 4 {
      StoredOneMore(s.timers[i], stores, last);
    }
  }

  lemma {:induction false} StoredOneMore(t: Timer, stores: seq<Store>, last: Store)
    ensures StoredAll(t, stores + [last]) == Stored(StoredAll(t, stores), last)
    decreases |stores|
  {
    if stores == [] {
      assert [] + [last] == [last] && [last][1..] == [];
    } else {
      assert (stores + [last])[1..] == stores[1..] + [last];
      StoredOneMore(Stored(t, stores[0]), stores[1..], last);
    }
  }

  /** The actions of a handler happen in the order they are given. */
  lemma {:induction false} BodyRunsInOrder(isr: Isr, front: seq<Action>, last: Action, s: Core)
    requires s.Valid()
    ensures RunBody(isr, [], s) == s
    ensures RunBody(isr, front + [last], s) == RunAction(isr, last, RunBody(isr, front, s))
  {
    hide RunAction;
    if front == [] {
      assert [] + [last] == [last] && [last][1..] == [];
      assert RunBody(isr, [last], s) == RunBody(isr, [], RunAction(isr, last, s));
    } else {
      assert (front + [last])[1..] == front[1..] + [last];
      BodyRunsInOrder(isr, front[1..], last, RunAction(isr, front[0], s));
    }
  }

  /** A match handler finds the counter at the match. The reset and stop bits act when it is done, and as it left them:
      a count it stored is lost to a reset, and a timer it started is stopped all the same. */
  lemma BitsActBehindTheHandler(isr: Isr, s: Core, i: nat, at: Timer, stores: seq<Store>)
    requires s.Valid() && i < 3 && at == s.timers[i].(tc := s.timers[i].mr0)
    requires isr(i, s.(timers := s.timers[i := at])) == [StoreTimer(i, stores)]
    ensures var u := StoredAll(at, stores);
            RunHandler(isr, TimerMatch(i), s)
            == s.(timers := s.timers[i := Timer(if u.resetOnMatch then 0 else u.tc, u.mr0, u.interruptOnMatch,
                                                u.resetOnMatch, u.stopOnMatch, u.running && !u.stopOnMatch)])
  {
    hide RunBody, StoredAll, AfterMatch, Shrunk, TimerEntries, PendingWeight, BodyWeight, ActionWeight;
    var s1, u := s.(timers := s.timers[i := at]), StoredAll(at, stores);
    assert AtMatch(s, i) == s1;
    OneStore(isr, s1, i, stores);
    Overwritten(s.timers, i, at, u);
    ThenResetOrStop(s, i, u);
  }

  lemma OneStore(isr: Isr, s: Core, i: nat, stores: seq<Store>)
    requires s.Valid() && i < 3
    ensures RunBody(isr, [StoreTimer(i, stores)], s) == s.(timers := s.timers[i := StoredAll(s.timers[i], stores)])
  {
    hide TryDispatchNext, RunAll, RunBody, StoredAll, Shrunk, TimerEntries, PendingWeight, BodyWeight, ActionWeight;
    BodyRunsInOrder(isr, [], StoreTimer(i, stores), s);
    assert [] + [StoreTimer(i, stores)] == [StoreTimer(i, stores)];
  }

  lemma Overwritten(timers: seq<Timer>, i: nat, a: Timer, b: Timer)
    requires i < |timers|
    ensures timers[i := a][i := b] == timers[i := b]
  {
  }

  lemma ThenResetOrStop(s: Core, i: nat, u: Timer)
    requires s.Valid() && i < 3
    ensures AfterMatch(s.(timers := s.timers[i := u]), i)
            == s.(timers := s.timers[i := Timer(if u.resetOnMatch then 0 else u.tc, u.mr0, u.interruptOnMatch,
                                                u.resetOnMatch, u.stopOnMatch, u.running && !u.stopOnMatch)])
  {
    var after := AfterMatch(s.(timers := s.timers[i := u]), i);
    Overwritten(s.timers, i, u, after.timers[i]);
  }
}
