# A verified model of the Carvera firmware simulator's engines

The simulator runs unmodified CNC firmware against simulated hardware. This project models the stateful engines that
everything else stands on, and proves what they keep over whole runs. Each engine is a class with the fields and loops
of the original, proved against functions on plain values; the lemmas are about those functions.

| file | engine |
|---|---|
| `Interrupts.dfy` | pending interrupts, NVIC selection, handlers that raise and dispatch again |
| `Timers.dfy`, `Advancing.dfy`, `Scheduler.dfy` | one-cycle stepping as the meaning of time, the loop that jumps from match to match and when it ends, and the machine that runs it |
| `TransportLog.dfy`, `TransportFormatter.dfy` | the resynchronising parser of framed traffic: a reference parser, and the log formatter with bytes held back per channel and direction |
| `PrintableBytes.dfy` | the escaped text in which traffic is logged, and its decoder |
| `UsTicker.dfy` | the microsecond ticker's linked list, sorted by wrap-around 32-bit time, and handlers that insert and remove events |
| `Steppers.dfy`, `StepperBoard.dfy` | GPIO writes that become edges, positions and endstop levels |
| `Backplot.dfy` | the drawn path, the geometry operations sent to browsers, and their replicas |
| `AtcRack.dfy` | the clamp automaton and the tools it moves between spindle and rack |
| `MotionTelemetry.dfy` | the throttled telemetry emitter with its speed window |
| `Eeprom.dfy`, `Crc16.dfy` | the I2C EEPROM's transactions, the CRC and the factory record |
| `Arithmetic.dfy`, `Bytes.dfy`, `Options.dfy` | shared arithmetic facts and types |

How the model reads the original:

- Integer widths are explicit where they matter: timer registers and ticker times wrap at 2^32, the clock at 2^64, bus
  addresses at 2^16; port registers are 32 levels; the CRC works on 16-bit vectors. Counters that only number things
  (interrupt and sample sequence numbers, step positions) are unbounded. `double` is `real`.
- An interrupt handler is a tree of actions (raise, dispatch, enable and disable interrupts, set priorities, store to
  timer registers), or, for a timer, a function from the whole machine as the handler finds it, registers and earlier
  calls included, to such actions. What a handler does besides is its entry in the call log.
- That an advance may be cut anywhere, and that its clock does not drift, needs no condition on handlers but that the
  loop ends. How often a timer calls its handler only needs handlers that leave that timer, its interrupt's enable bit
  and the global mask alone (`Timers.Leaves`). That jumping is as good as single cycles is shown for two kinds: calm
  handlers leave timer and NVIC registers alone (`Timers.Calm`); tame ones may also mask interrupts, change priorities
  and arm timers, as long as every match resets or stops and no store carries a running counter to its match
  (`Advancing.Tame`).
- A handler of the microsecond ticker is a script of what each of its calls does to the ticker: any finite script.
- What a bit, a level, a byte, a millimetre or a microsecond means is not left to the functions that the theorems are
  about: each engine has statements in plain numbers, registers, coordinates and bytes, at the end of its file.
- Sinks and callbacks become returned samples, logs of calls, or sequences of sent operations.

Where the code does not do what its own comments or callers suggest, the model follows the code, and a lemma says
exactly when the expected property holds:

- Advancing by some cycles need not end: a match that neither resets nor stops its timer is due again as soon as it was
  served. With calm handlers, the loop ends if and only if every such enabled match is at least that many cycles away
  and none of them is still pending when a nearer match is served (`Advancing.AdvancingEndsExactlyWhen`); otherwise it
  runs for ever with cycles remaining. With tame handlers it always ends (`Advancing.TameAdvancingEnds`).
- Once the clock has left the half-range window of the queued times, the ticker stops at a head that no longer looks
  due (`UsTicker.DueEventsServedExactlyWhen`, `UsTicker.DueEventMayWait`). Inserting an event keeps the ticker's list a
  list if and only if the event is not queued; otherwise it drops the events behind it and links the list into a loop
  (`UsTicker.UsTickerState.InsertEvent`).
- A segment cap of zero keeps every segment (`Backplot.CapIsKeptExactlyWhen`). A lost operation is noticed if and only
  if the number of segments changed: a lost append is, a lost replacement and a lost pruning are not
  (`Backplot.LostOperationIsNoticedExactlyWhen`, `Backplot.LostReplacementLeavesAGap`).
- A clamp that opens over an occupied pocket loses the tool that was in it (`AtcRack.OpeningConservesExactlyWhen`,
  `AtcRack.RunConservesExactlyWhen`, `AtcRack.OverwrittenToolIsGone`); pockets 0 and -1 are placed at the same spot
  (`AtcRack.PlacesOverlapExactlyWhen`).
- A logged backslash that happens to precede `n`, `r`, `t` or a readable `x` escape is decoded as an escape
  (`PrintableBytes.DecodingUndoesLogging`).
- The telemetry emitter looks at the spindle's spinning flag, but a sample in which only the flag would change is then
  held back (`MotionTelemetry.SendsExactlyWhen`, `MotionTelemetry.SpinningFlagMayStayWrong`,
  `MotionTelemetry.SpinningFlagWitness`).
- An EEPROM stores what is written to it if and only if its two bus addresses differ
  (`Eeprom.WritesAreStoredExactlyWhen`); a stretch longer than the device overwrites its own start
  (`Eeprom.StretchIsIntactExactlyWhen`).

## Model

| member | source | states |
|---|---|---|
| Interrupts.Best | src/core/interrupt_controller.cpp:61-79 | the selected pending interrupt may run, and of all that may it has the lowest stored level, or an equal one and was raised first; none is selected only when none may run |
| Interrupts.RunAll | src/core/interrupt_controller.cpp:52-55 | dispatching everything terminates although handlers raise and dispatch again, and leaves only ineligible interrupts |
| Interrupts.PushKeepsLedger | src/core/interrupt_controller.cpp:34-36 | a raised interrupt gets the next ticket, and raised interrupts stay exactly the pending ones and the called ones together |
| Interrupts.TakenKeepsLedger | src/core/interrupt_controller.cpp:38-50 | an interrupt leaves the pending ones before its handler runs, so that a nested dispatch cannot call it again |
| Interrupts.RunAllLedger | src/core/interrupt_controller.cpp:38-55 | over a whole dispatch with nested raises and dispatches, every ticket is pending or was called, never both and never twice |
| Interrupts.AtMostOnce | src/core/interrupt_controller.cpp:34-50 | no two calls have the same ticket, a called ticket is not pending, and every issued ticket was called exactly when it is not pending |
| Interrupts.DispatchAllRunsEachOnce | src/core/interrupt_controller.cpp:38-79 | after a dispatch of everything: each raised interrupt called at most once with its own handler, those still pending are ineligible, all others were called |
| Interrupts.SelectionOrderCounts | src/core/interrupt_controller.cpp:61-79 | repeated selection takes exactly the eligible interrupts, each once |
| Interrupts.SelectionOrderSorts | src/core/interrupt_controller.cpp:61-79 | repeated selection takes lower stored levels first, and the interrupt raised first among equals |
| Interrupts.PassiveCall | src/core/interrupt_controller.cpp:38-50 | a handler that does nothing costs exactly one pending entry and one call |
| Interrupts.PassiveRunIsSelection | src/core/interrupt_controller.cpp:52-79 | with passive handlers the calls are the selection order |
| Interrupts.PassiveRunOrder | src/core/interrupt_controller.cpp:52-79 | with passive handlers every interrupt that may run is called once, lower levels in the priority registers first, in raise order among equals |
| Interrupts.EligibleMembers | src/core/interrupt_controller.cpp:57-59 | an interrupt is eligible exactly when it is pending, the global mask is off and its own bit, 16 slots behind its number, is set |
| Interrupts.DispatchTakesTheMostUrgent | src/core/interrupt_controller.cpp:38-79 | whatever handlers do: one dispatch calls the most urgent interrupt that may run, by stored level and raise order, before anything its handler does, and does nothing exactly when none may run |
| Interrupts.TwoRunByLevel | src/core/interrupt_controller.cpp:52-79 | two interrupts raised on a quiet controller: the first runs first exactly when its stored level is not the higher number |
| Interrupts.RaisedBehindTheOthers | src/core/interrupt_controller.cpp:34-36 | raising appends the interrupt under the next number and changes nothing else |
| Interrupts.InterruptStores | src/core/lpc1768_sim.cpp:170-213 | what stores to mask, enable bits and levels change, slot by slot; a slot that does not exist stays unwritten |
| Interrupts.TimerStores | src/core/lpc1768_sim.cpp:125-132 | any sequence of stores to a timer register: each changes its own fields, the control store with the reset bit also clears the counter |
| Interrupts.BodyRunsInOrder | src/core/interrupt_controller.cpp:44-48 | the actions of a handler happen one after the other |
| Interrupts.BitsActBehindTheHandler | src/core/timer_scheduler.cpp:190-201 | a match handler finds the counter at its match; the reset and stop bits act behind it and as it left them, on the count and run bit it stored |
| Timers.RunAllServes | src/core/timer_scheduler.cpp:183-203 | with register-preserving handlers, each dispatched match calls its timer's handler once and then resets or stops the timer as its control register says; nothing else changes timers, NVIC or clock |
| Timers.RunAllServesTimer | src/core/timer_scheduler.cpp:183-203 | whatever the handlers do to the other timers and interrupts, each dispatched match of a timer they leave alone calls its handler once and then resets or stops it |
| Timers.RaiseDueEffect | src/core/timer_scheduler.cpp:172-181 | exactly the timers at or past their match get one pending match each, with the counter set to the match |
| Timers.SettleServes | src/core/timer_scheduler.cpp:99-107 | raising due matches and dispatching them calls each due timer's handler as often as it had matches pending, and leaves the others as they are |
| Timers.SettleServesTimer | src/core/timer_scheduler.cpp:99-107 | the same for raising and dispatching: of one timer that the handlers leave alone |
| Timers.NothingDueAfter | src/core/timer_scheduler.cpp:195-200 | when every enabled match resets or stops, nothing is due after the matches were served |
| Timers.NothingDueAfterExactlyWhen | src/core/timer_scheduler.cpp:172-201 | serving leaves nothing due if and only if no enabled timer that neither resets nor stops is due or has a match pending |
| Timers.DueAgainExactlyWhen | src/core/timer_scheduler.cpp:189-200 | a timer is due after serving if and only if it is enabled, neither resets nor stops, and its match was due or pending |
| Timers.NeitherResetNorStopIsDueAgain | src/core/timer_scheduler.cpp:189-200 | such a timer stands at the same count, due again, right after it was served |
| Timers.TickTwice | src/core/timer_scheduler.cpp:152-170 | counting a cycles and then b cycles gives the same counters, clock and remainder as counting their sum |
| Timers.SteppedQuiet | src/core/timer_scheduler.cpp:83-108 | as long as no match lies strictly inside, one jump over n cycles is n single cycles, whatever the handlers do |
| Timers.SteppedClock | src/core/timer_scheduler.cpp:152-162 | whatever the handlers do, the clock of n single cycles is one conversion of n cycles |
| Timers.ElapsedFitsIn64Bits | src/core/timer_scheduler.cpp:159-162 | the 64-bit intermediate of the conversion cannot overflow, whatever the cycles and the clock |
| Timers.TimerCycle | src/core/timer_scheduler.cpp:83-108 | one cycle seen by a timer that the handlers leave alone: it counts, and on its match its handler runs once and it resets or stops, whatever is done to the other timers |
| Timers.PeriodicCalls | src/core/timer_scheduler.cpp:83-108 | over n single cycles a reset-on-match timer's handler runs exactly floor((TC + n) / MR0) times and its counter ends at (TC + n) mod MR0, whatever the handlers do to the other timers and interrupts |
| Timers.OneShotCalls | src/core/timer_scheduler.cpp:195-200 | a stop-on-match timer calls its handler once, when its match is reached, and then stays stopped, whatever the handlers do to the other timers and interrupts |
| Timers.MatchEnabledExactlyWhen | src/core/timer_scheduler.cpp:125-134 | a match can be raised exactly when the mask is off, the interrupt with the timer's number plus one is enabled, and the timer runs and interrupts on a match other than zero |
| Timers.MatchesAreRaisedInOrder | src/core/timer_scheduler.cpp:172-203 | which counters stand at their matches or past them, and that these are raised in timer order under consecutive numbers, each counter set to its match |
| Timers.TimePasses | src/core/timer_scheduler.cpp:152-170 | cycles in numbers: running counters modulo 2^32, the clock modulo 2^64 by floor((remainder + 1,000,000 n) / (core clock / 4)), the rest carried; the fourth timer never counts |
| Advancing.NextMatch | src/core/timer_scheduler.cpp:136-150 | none exactly when no match is enabled; otherwise the distance of some enabled match, and no enabled match is nearer |
| Advancing.DueAfterJump | src/core/timer_scheduler.cpp:99-105 | after a jump to the next match something is due, so the early return for nothing raised is never taken; a jump of zero cycles had a due timer to begin with |
| Advancing.JumpToEnd | src/core/timer_scheduler.cpp:93-97 | when the next match is farther than what remains, counting on is all that stepping does |
| Advancing.JumpToMatch | src/core/timer_scheduler.cpp:99-107 | jumping to the next match and serving it, then stepping the rest, is stepping everything, if serving leaves nothing due while cycles remain |
| Advancing.TurnIsStepping | src/core/timer_scheduler.cpp:85-107 | under that condition one turn of the loop keeps what stepping would reach, and comes nearer to the end by cycles or by due timers |
| Advancing.StuckTurn | src/core/timer_scheduler.cpp:85-107 | where the condition for ending fails, it still fails after a turn, with cycles remaining |
| Advancing.AdvancingEndsExactlyWhen | src/core/timer_scheduler.cpp:83-108 | with calm handlers, some finite number of turns uses up the cycles if and only if every enabled match that neither resets nor stops is at least that far away, and where one of those is pending, so is every enabled match |
| Advancing.AdvancingEndsWithoutPendingExactlyWhen | src/core/timer_scheduler.cpp:83-108 | the same without pending matches: only the distances count |
| Advancing.AdvancingMayNeverEnd | src/core/timer_scheduler.cpp:83-108 | a machine on which advancing by a single cycle never ends |
| Advancing.StartingArmsExactlyWhenReset | src/core/lpc1768_sim.cpp:125-132 | starting a timer arms it safely if and only if the same store resets its counter; dropping the reset bit afterwards is safe |
| Advancing.TameLeavesNothingDue | src/core/timer_scheduler.cpp:172-203 | handlers may arm timers while matches are served: afterwards nothing is due |
| Advancing.TameAdvancingEnds | src/core/timer_scheduler.cpp:83-108 | with such handlers every advance ends, as with a step timer whose handler arms a pulse timer |
| Advancing.AdvancedIsStepped | src/core/timer_scheduler.cpp:83-108 | where its end is guaranteed, the loop ends and does exactly what stepping cycle by cycle does: counters, pending interrupts, ordered handler log, clock and remainder |
| Advancing.AdvancedKeepsGood | src/core/timer_scheduler.cpp:83-108 | the end of one advance is a good start for the rest of a longer one |
| Advancing.AdvanceIsCut | src/core/timer_scheduler.cpp:83-108 | for any handlers at all: where advancing by a + b cycles ends, advancing by a ends, then by b, and leaves the same machine |
| Advancing.AdvancesAreGlued | src/core/timer_scheduler.cpp:83-108 | conversely, where advancing by a and then by b ends, so does advancing by a + b |
| Advancing.LoopNeverOvershoots | src/core/timer_scheduler.cpp:136-170 | after any number of turns of the loop, ending or not, no enabled counter stands past its match, also when handlers arm timers |
| Advancing.AdvancingCallsPeriodically | src/core/timer_scheduler.cpp:83-108 | whenever the loop ends, n cycles call a reset-on-match timer's handler exactly floor((TC + n) / MR0) times, whatever the handlers do to the other timers and interrupts |
| Advancing.CutsDoNotMatter | src/core/timer_scheduler.cpp:83-108 | for any handlers: however a number of cycles is divided over calls of the jumping scheduler, the whole machine state comes out the same, provided that the undivided advance ends |
| Advancing.NoDrift | src/core/timer_scheduler.cpp:152-162 | for any handlers: over any sequence of advances at a fixed clock, microseconds added times a quarter of the core clock (1 at least) plus the final remainder is the initial remainder plus all cycles times 1,000,000, and the remainder stays below that quarter; the clock wraps at 2^64 |
| Advancing.TwentyFiveCyclesAMicrosecond | src/core/timer_scheduler.cpp:152-162 | at 100 MHz every 25 cycles are a microsecond, for any handlers and however the time is cut |
| Advancing.TimerRunsAlone | src/core/timer_scheduler.cpp:83-108 | one reset-on-match timer running alone: every advance ends, and calls it floor((TC + n) / MR0) times |
| Scheduler.Machine.constructor | src/core/lpc1768_sim.cpp:238-250 | a reset machine: nothing pending, every enable bit clear and every level zero, all timers stopped, clock at zero, 100 MHz |
| Scheduler.Machine.RaiseInterrupt | src/core/interrupt_controller.cpp:34-36 | appends the interrupt with the next sequence number and changes nothing else |
| Scheduler.Machine.HighestPriorityPending | src/core/interrupt_controller.cpp:61-79 | the scan finds, by the raw enable bits and levels, the interrupt with the lowest level, the one raised first among equals; or none when none may run |
| Scheduler.Machine.PerformAction | src/core/lpc1768_sim.cpp:181-213 | what a handler may do to interrupts, priorities and timer registers, one action at a time |
| Scheduler.Machine.StoreToTimer | src/core/lpc1768_sim.cpp:125-132 | stores to a timer in order; a control store with the reset bit clears the counter |
| Scheduler.Machine.CallHandler | src/core/timer_scheduler.cpp:190-201 | a match handler: counter set to the match, the timer's handler, then reset or stop by the control register |
| Scheduler.Machine.DispatchNext | src/core/interrupt_controller.cpp:38-50 | removes the selected interrupt, then runs its handler; says whether there was one |
| Scheduler.Machine.DispatchAll | src/core/interrupt_controller.cpp:52-55 | repeats until nothing eligible is left, and terminates |
| Scheduler.Machine.MatchInterruptEnabled | src/core/timer_scheduler.cpp:125-134 | true exactly for a timer below three that runs, interrupts on a match other than zero, and is enabled in the NVIC |
| Scheduler.Machine.CyclesToNextMatch | src/core/timer_scheduler.cpp:136-150 | none exactly when no match is enabled; otherwise the distance of some enabled match, and no enabled match is nearer |
| Scheduler.Machine.AdvanceRunningTimers | src/core/timer_scheduler.cpp:152-170 | counts running timers modulo 2^32 and converts cycles to microseconds with the carried remainder |
| Scheduler.Machine.RaiseMatch | src/core/timer_scheduler.cpp:183-203 | an enabled match sets the counter to the match and raises one interrupt; otherwise nothing happens |
| Scheduler.Machine.RaiseDueMatches | src/core/timer_scheduler.cpp:172-181 | raises all due matches in timer order, and says whether any was due |
| Scheduler.Machine.AdvanceCycles | src/core/timer_scheduler.cpp:83-108 | for any handlers with which it ends, the loop that jumps from match to match leaves what its specification says, and a longer advance can be continued from there; for tame handlers, and calm ones under the exact condition for ending, that is what stepping cycle by cycle does |
| Scheduler.Machine.DispatchMatch | src/core/timer_scheduler.cpp:74-81 | raises one timer's match and dispatches, or refuses and changes nothing |
| Scheduler.Machine.AdvanceToNextMatch | src/core/timer_scheduler.cpp:110-123 | fails exactly when no match is enabled; otherwise time moves to the nearest match and it is served, which is as good as stepping there |
| TransportLog.ScanConserves | gui/core/transport_log.py:146-198 | plain bytes, frames and held bytes together are exactly the input; every frame has the frame shape; only a possible start of a frame is held |
| TransportLog.NextIsStable | gui/core/transport_log.py:156-196 | an item that the parser has decided on stays the same when more bytes arrive, truncated or not |
| TransportLog.Resume | gui/core/transport_log.py:129-139 | parsing a stream in two parts with the held bytes carried over is parsing it at once; the second part may be truncated |
| TransportLog.ChunksDoNotMatter | gui/core/transport_log.py:129-198 | however the streams of all channels are cut and interleaved, each channel and direction shows the items, and holds the bytes, of its own stream fed at once; a truncated entry ends a stream, and the next one begins |
| TransportLog.UntruncatedChunksDoNotMatter | gui/core/transport_log.py:129-198 | without truncated entries there is one stream per channel and direction, and it alone decides what is shown and held |
| TransportLog.ScanWire | gui/core/transport_log.py:171-196 | a frame is taken whole whatever its payload holds, header and footer bytes included |
| TransportLog.ParsingUndoesPrinting | gui/core/transport_log.py:30-31 | well-formed frames and header-free text, in any order, parse to exactly those frames and bytes; only a last byte that may begin a header is still held |
| TransportLog.FramesSurviveAnyCut | gui/core/transport_log.py:129-198 | the same for a stream cut into log entries anywhere and interleaved with other channels, behind whatever truncated entries there were before |
| TransportLog.FrameIsFound | gui/core/transport_log.py:30-31 | the bytes 86 68, a big-endian length, type, payload, two check bytes and 55 aa are one frame, whatever the payload holds and whatever follows |
| TransportLog.BeginningIsHeld | gui/core/transport_log.py:165-184 | every proper beginning of such a frame is held back whole |
| TransportLog.FoundIsAFrame | gui/core/transport_log.py:171-196 | conversely, whatever is taken for a frame has these bytes |
| TransportLog.CutFrameIsShownExactlyWhen | gui/core/transport_log.py:176-187 | of a frame in a truncated entry, cut behind its type, something is shown if and only if the full data reached to its end |
| TransportFormatter.FindHeader | gui/core/transport_log.py:157-157 | the first header at or after an offset, or none |
| TransportFormatter.HeaderIncomplete | gui/core/transport_log.py:167-187 | at an incomplete frame everything from the header on is held; a truncated entry shows what it has of a frame that it must have contained |
| TransportFormatter.HeaderResync | gui/core/transport_log.py:172-193 | a header with an impossible length or without its footer is one plain byte, and the search goes on behind it |
| TransportFormatter.HeaderFrame | gui/core/transport_log.py:189-196 | a complete frame is shown with its type, payload and length, and the search goes on behind it |
| TransportFormatter.Formatter.FormatData | gui/core/transport_log.py:146-198 | the loop over headers shows what the reference parser shows, plain text compared byte by byte, and holds what it holds |
| TransportFormatter.Formatter.FormatEntry | gui/core/transport_log.py:129-144 | an entry of a channel and direction: its held bytes and the decoded text are parsed together, the rest held; no other channel is touched, and a truncated entry leaves nothing held |
| TransportFormatter.FormatLog | gui/core/session.py:95-99 | one formatter over a whole log: for every channel and direction the lines show what its stream fed at once shows, and the formatter ends up holding what that holds |
| TransportFormatter.EncodedFrameShows | gui/core/transport_log.py:189-195 | a frame written with a type and payload is shown with them |
| TransportFormatter.WireIsShown | gui/core/transport_log.py:189-196 | such a frame is shown with its type and payload, and nothing is held |
| TransportFormatter.CutWireIsShown | gui/core/transport_log.py:176-183 | a frame cut short by truncation is shown with what there is of its payload and with its full length |
| TransportFormatter.LogCarriesTheBytes | src/core/logging.cpp:56-85 | bytes logged in any parts come out of the log as the same stream, if each part is legible |
| TransportFormatter.FormatFrame | gui/core/transport_log.py:129-198 | a frame logged in any parts is shown by the formatted log, with its type and payload and nothing else, and nothing is left over |
| PrintableBytes.WritePrintable | src/core/logging.cpp:56-85 | the escaped text of at most 512 bytes, then the real length |
| PrintableBytes.DecodePrintable | gui/core/transport_log.py:72-106 | the decoding loop: truncation marker, escapes, and literal characters with their UTF-8 bytes |
| PrintableBytes.UnescapeEscapes | src/core/logging.cpp:60-80 | decoding an escaped text gives the bytes back exactly when no backslash is ambiguous, and fewer bytes otherwise |
| PrintableBytes.MarkerReads | src/core/logging.cpp:81-83 | the truncation marker is always read back, with its length |
| PrintableBytes.EscapesAreOneLine | src/core/logging.cpp:60-80 | a logged text holds no line feed, so that the decoder always recognises its marker |
| PrintableBytes.DecodingUndoesLogging | src/core/logging.cpp:56-85 | up to 512 logged bytes, or of more the first 512 and the length, are decoded back if and only if no backslash reads as an escape and a short text does not end like a marker |
| PrintableBytes.MarkerTextIsMistaken | gui/core/transport_log.py:72-76 | twelve bytes without any backslash that are read as a truncation marker |
| PrintableBytes.BackslashIsMistaken | gui/core/transport_log.py:93-97 | two bytes that are read as a line feed |
| PrintableBytes.LoggedByte | src/core/logging.cpp:60-80 | how each of the 256 bytes is logged: as itself from 0x20 to 0x7e, as \n, \r or \t, or as \x and two small hexadecimal digits |
| PrintableBytes.LoggedTogether | src/core/logging.cpp:59-80 | up to 512 bytes are logged one after the other |
| PrintableBytes.LongDataIsCut | src/core/logging.cpp:81-83 | of more than 512 bytes the first 512 are logged, then their number in decimal inside "...(" and " bytes)" |
| PrintableBytes.DecimalIsDecimal | src/core/logging.cpp:82-82 | the number is the one text whose digits, from the last on, are those of the count |
| PrintableBytes.MarkerIsRead | gui/core/transport_log.py:72-76 | such a marker is read back with its number behind any text of one line |
| PrintableBytes.NoMarkerNoLength | gui/core/transport_log.py:72-78 | a text that ends in neither a parenthesis nor a line feed is decoded without a length |
| PrintableBytes.HexByteExactlyWhen | gui/core/transport_log.py:85-91 | which two characters behind \x are read as a byte |
| PrintableBytes.HexEscapeIsRead | gui/core/transport_log.py:85-92 | \x and two digits, small or capital, are read as that byte |
| PrintableBytes.ShortEscapesAreRead | gui/core/transport_log.py:93-97 | \n, \r and \t are read as 10, 13 and 9 |
| PrintableBytes.CharacterIsRead | gui/core/transport_log.py:99-105 | any other character stands for itself, as one byte up to 255 |
| PrintableBytes.CharactersInUtf8 | gui/core/transport_log.py:103-104 | beyond 255 its bytes are the UTF-8 form: a leading byte that tells how many follow, six bits in each |
| UsTicker.AheadInWindow | src/core/us_ticker_sim.cpp:40-47 | inside a window shorter than 2^31 the signed 32-bit difference is the difference of the offsets from the window's start |
| UsTicker.InsertKeepsOrder | src/core/us_ticker_sim.cpp:35-53 | inserting where the loop stops keeps the queue sorted by wrap-around time, first come first on ties |
| UsTicker.RemoveKeepsOrder | src/core/us_ticker_sim.cpp:55-74 | removing an event, or the front of the queue, keeps the order |
| UsTicker.DueEventsAreInFront | src/core/us_ticker_sim.cpp:67-76 | with the clock inside the window, an event is due exactly when it is in the due front |
| UsTicker.DueEventsServedExactlyWhen | src/core/us_ticker_sim.cpp:67-76 | for any clock: all due events are in the due front if and only if the clock is inside the window, or the first event is due, or the last one is not |
| UsTicker.DueEventMayWait | src/core/us_ticker_sim.cpp:67-76 | two times and a clock for which a due event waits behind one that no longer looks due |
| UsTicker.ActKeepsOrder | src/core/us_ticker_sim.cpp:26-65 | whatever a handler does, inserting in the window, removing, resetting, the queue stays sorted |
| UsTicker.NothingDueIsLeft | src/core/us_ticker_sim.cpp:67-76 | dispatching with handlers that insert and remove events keeps the queue sorted, and with the clock inside the window leaves nothing due, newly inserted events included |
| UsTicker.NeverComesBack | src/core/us_ticker_sim.cpp:67-74 | an insertion that is no longer pending is never served again |
| UsTicker.EachIsServedOnce | src/core/us_ticker_sim.cpp:67-74 | each insertion is served at most once, and none is both served and still pending, though handlers insert the same events anew |
| UsTicker.NoneIsLost | src/core/us_ticker_sim.cpp:67-74 | a pending event that no handler removes is served or stays pending |
| UsTicker.PassiveHandlersServeTheFront | src/core/us_ticker_sim.cpp:67-76 | with handlers that leave the ticker alone, exactly the due front is served, in order |
| UsTicker.RearmedEventCatchesUp | src/core/us_ticker_sim.cpp:67-76 | a periodic event that is inserted again whenever it fires is served floor(lateness / period) + 1 times by one dispatch, a period apart, and is then pending at the next time |
| UsTicker.DispatchCallsWhatIsPast | src/core/us_ticker_sim.cpp:31-76 | in microseconds of the 64-bit clock: of events asked for within half the 32-bit range, one dispatch calls exactly those whose microsecond has come, earliest first and in the order asked for on ties; the others stay |
| UsTicker.PeriodicAlarmCatchesUp | src/core/us_ticker_sim.cpp:31-76 | an event asked for every so many microseconds is called once for each period begun since, by one dispatch, and is queued for the next |
| UsTicker.OtherActs | src/core/us_ticker_sim.cpp:26-65 | removal takes out exactly that event; reset drops list and handler while the clock goes on; a new handler and passing time change nothing else |
| UsTicker.LoopsNeverEnd | src/core/us_ticker_sim.cpp:46-51 | pointers that run into a loop are no list |
| UsTicker.UsTickerState.constructor | src/core/us_ticker_sim.cpp:26-29 | an empty list without a handler |
| UsTicker.UsTickerState.ResetTicker | src/core/us_ticker_sim.cpp:26-29 | an empty list without a handler; the clock stays |
| UsTicker.UsTickerState.FindCursor | src/core/us_ticker_sim.cpp:46-49 | the cursor loop stops at the event behind which the new one belongs |
| UsTicker.UsTickerState.LinkBehind | src/core/us_ticker_sim.cpp:40-53 | relinking two pointers yields a chain with the event in its place, or a loop if the event ended the chain itself |
| UsTicker.UsTickerState.Link | src/core/us_ticker_sim.cpp:40-53 | finds the place of an event and links it in |
| UsTicker.UsTickerState.Stamp | src/core/us_ticker_sim.cpp:36-38 | time, id and a cleared link; a queued event becomes the last of its list |
| UsTicker.UsTickerState.Splice | src/core/us_ticker_sim.cpp:35-53 | an event that is not queued gets its place in the list; a queued one closes a loop from that place on |
| UsTicker.UsTickerState.InsertEvent | src/core/us_ticker_sim.cpp:35-53 | the list remains a list if and only if the event was not queued; then it is the old one with the event in its place, sorted in every window the new time lies in, otherwise the pointers end in a loop, which is given |
| UsTicker.UsTickerState.FindEvent | src/core/us_ticker_sim.cpp:55-64 | the pointer cursor finds the event exactly when it is in the list, and the link that leads to it |
| UsTicker.UsTickerState.Unlink | src/core/us_ticker_sim.cpp:58-62 | the link that led to the event leads behind it |
| UsTicker.UsTickerState.RemoveEvent | src/core/us_ticker_sim.cpp:55-65 | takes exactly that event out and unlinks it, keeping the list sorted; an event that is not in the list changes nothing |
| UsTicker.UsTickerState.PopFront | src/core/us_ticker_sim.cpp:69-71 | the head is taken off and unlinked, so that its handler may insert it again |
| UsTicker.UsTickerState.PerformAll | src/core/us_ticker_sim.cpp:26-65 | what one call of a handler does, one operation after the other |
| UsTicker.UsTickerState.ServeHead | src/core/us_ticker_sim.cpp:69-72 | the head is taken off before its id goes to the handler, and then the handler does its part |
| UsTicker.UsTickerState.DispatchDueEvents | src/core/us_ticker_sim.cpp:67-76 | with handlers that insert, remove, reset, move the clock and replace the handler: the events served, in order, and the list left, which is sorted and, with the clock inside the window, without a due event |
| Steppers.NotifiedForm | src/core/lpc1768_sim.cpp:32-40 | pin by pin in ascending order: the levels an axis remembers, and its position, after the first n pins were notified |
| Steppers.WriteMoves | src/core/stepper_axis.cpp:55-73 | one register write moves a connected axis by its step pin's rising edge, signed by the direction level seen at that moment, and the remembered levels are the port's again |
| Steppers.PositionCountsEdges | src/core/stepper_axis.cpp:55-73 | over any run of set and clear writes and motor connections, an axis' position is its initial one plus the signed count of its rising edges while connected |
| Steppers.EventKeepsAgreement | src/core/stepper_axis.cpp:119-158 | every write and every connection keeps levels remembered and endstop pins in agreement for all axes |
| Steppers.RunKeepsAgreement | src/core/stepper_axis.cpp:97-158 | after any run each enabled endstop pin shows its predicate of the current position, and step and direction levels are remembered exactly |
| Steppers.AddedAxisAgrees | src/core/stepper_axis.cpp:167-170 | an axis added to an agreeing bench agrees, and disturbs no other |
| Steppers.OnePolarity | src/core/stepper_axis.cpp:139-151 | with one polarity on a shared pin, the pin is at its triggered level exactly when one of its endstops is triggered |
| Steppers.ShownPortsAt | src/core/stepper_axis.cpp:119-158 | on a bench with private endstop pins, each driven pin shows its own axis and every other pin is untouched |
| Steppers.TriggeredBySteps | src/core/stepper_axis.cpp:102-117 | an enabled endstop is triggered exactly with the motor off or the position in steps on its side of the trigger position |
| Steppers.EndstopPinTells | src/core/stepper_axis.cpp:119-158 | after any run on a wired board: an endstop pin has the triggered level of the last enabled endstop on it if and only if the motor is off or the axis is on the side of one of its endstops |
| Steppers.SingleEndstopPinTells | src/core/stepper_axis.cpp:102-158 | with one enabled endstop on the pin: if and only if the motor is off, or position >= trigger times steps per millimetre for the upper kind, <= for the lower |
| Steppers.WriteStepsTheAxis | src/core/stepper_axis.cpp:55-73 | a write that raises the step pin moves a connected axis by one, down when direction level and inversion differ; a higher direction pin of the same port counts with its old level |
| Steppers.OtherPinsFollowWrites | src/core/lpc1768_sim.cpp:142-154 | pins without an endstop have exactly the bits written to outputs |
| StepperBoard.Gpio.constructor | src/core/lpc1768_sim.cpp:215-222 | all pins low, all inputs |
| StepperBoard.StepperAxis.constructor | src/core/stepper_axis.cpp:34-46 | a non-positive scale becomes one; position rounded from millimetres, levels read from the pins, endstop pins driven |
| StepperBoard.StepperAxis.EndstopTriggered | src/core/stepper_axis.cpp:102-117 | a disabled endstop never, a disconnected motor always, otherwise when the position in steps is at or above, or at or below, the trigger position times the steps per millimetre, by the kind |
| StepperBoard.StepperAxis.HandledBefore | src/core/stepper_axis.cpp:125-137 | whether an earlier enabled endstop drives the same pin |
| StepperBoard.StepperAxis.SharedLevel | src/core/stepper_axis.cpp:139-151 | the level of a pin shared by several endstops |
| StepperBoard.StepperAxis.UpdateEndstopPin | src/core/stepper_axis.cpp:119-158 | exactly the enabled endstops' pins are driven, each once, to their levels |
| StepperBoard.StepperAxis.OnGpioLevelChanged | src/core/stepper_axis.cpp:55-73 | direction, step and foreign pins; endstop pins follow only when the axis moved |
| StepperBoard.StepperAxis.SetMotorConnected | src/core/stepper_axis.cpp:97-100 | the connection changes and the endstop pins follow |
| StepperBoard.StepperAxis.ResetPosition | src/core/stepper_axis.cpp:48-53 | the initial position with both levels forgotten, and endstop pins to match |
| StepperBoard.Board.AddAxis | src/core/stepper_axis.cpp:167-170 | the new axis' index, position, remembered levels and pins; the other axes stay |
| StepperBoard.Board.OnGpioLevelChanged | src/core/stepper_axis.cpp:197-201 | on any board: every axis hears of the pin, in order, and those that move drive their endstop pins |
| StepperBoard.Board.NotifyGpioChanges | src/core/lpc1768_sim.cpp:32-40 | on any board: every changed pin of a port is told in ascending order, although axes write the pins meanwhile |
| StepperBoard.Board.Apply | src/core/lpc1768_sim.cpp:142-166 | on any board: only output bits change, and all axes hear of it; on a wired board in agreement the write is one event of the bench and agreement is kept |
| StepperBoard.TellingShows | src/core/stepper_axis.cpp:197-201 | on a wired board, telling the axes about a pin keeps all endstop pins up to date |
| StepperBoard.WriteIsEvent | src/core/lpc1768_sim.cpp:142-154 | the pin-by-pin, axis-by-axis notification of a write ends where every axis was told alone and all endstop pins were driven at last |
| StepperBoard.Board.SetMotorConnected | src/core/stepper_axis.cpp:193-195 | on any board: one axis changes and drives its endstop pins, an unknown axis is refused; on a wired board in agreement it is one event of the bench |
| StepperBoard.WrittenBits | src/core/lpc1768_sim.cpp:146-152 | the masked OR and AND-NOT of a write, bit by bit |
| StepperBoard.NearestStep | src/core/stepper_axis.cpp:41-41 | the initial step count is the nearest one, half steps away from zero |
| Backplot.CoalescingStaysOnTheLine | gui/scene/backplot_layer.py:182-198 | a coalesced segment moves on along one axis in one direction; the others differ by at most 1e-6 per motion |
| Backplot.BackplotLayer.ClearAll | gui/scene/backplot_layer.py:105-113 | forgets line object, segments and last point, keeps the operation count |
| Backplot.BackplotLayer.CoalesceLastSegment | gui/scene/backplot_layer.py:182-198 | extends the last segment exactly when the motion continues it |
| Backplot.BackplotLayer.Render | gui/scene/backplot_layer.py:167-180 | a full operation for a new line object, a reset, or after 40 incremental ones, otherwise one segment with the base count |
| Backplot.BackplotLayer.RecordPoint | gui/scene/backplot_layer.py:119-146 | the first point, the distance filter, coalescing, appending and pruning, with the operation each sends |
| Backplot.RenderedDelivers | gui/scene/backplot_layer.py:255-276 | delivering the operation takes a replica that is exact or empty to one that is; one that lacks segments becomes stale or exact |
| Backplot.ReceivingIsSafe | gui/scene/backplot_layer.py:255-276 | every recorded point keeps those relations for a replica that receives its operation |
| Backplot.LateJoinerIsNeverWrong | gui/scene/backplot_layer.py:31-33 | a replica that starts empty at any time and receives every operation from then on holds nothing or exactly the server's formatted segments |
| Backplot.BehindGoesStale | gui/scene/backplot_layer.py:264-271 | a replica with too few segments is marked stale by the next incremental operation and healed by the next full one |
| Backplot.LostAppendsAreNoticed | gui/scene/backplot_layer.py:255-276 | when only appends get lost, a replica is never ahead, and after every operation that arrives it shows nothing, is stale, or is exact |
| Backplot.LostReplacementGoesUnnoticed | gui/scene/backplot_layer.py:264-276 | a lost replacement leaves a replica that looks up to date; it is right if and only if the moved end point formats to the same digits |
| Backplot.LostOperationIsNoticedExactlyWhen | gui/scene/backplot_layer.py:264-276 | after an operation of any kind was lost, the next incremental one marks the replica stale if and only if the number of segments changed, within the cap: if a segment was appended; otherwise it is applied, and the path is right if and only if the segments it did not carry format to the same digits |
| Backplot.LostReplacementLeavesAGap | gui/scene/backplot_layer.py:182-276 | a new layer, three moves, and a browser that misses the second: it takes itself for up to date and shows a path with a gap |
| Backplot.FullSyncsComeRegularly | gui/scene/backplot_layer.py:31-33 | in any run at most 40 incremental operations come between full ones |
| Backplot.CapIsKeptExactlyWhen | gui/scene/backplot_layer.py:139-142 | recording keeps the segment count within the cap if and only if the cap is at least one or nothing is recorded |
| Backplot.ZeroCapKeepsASegment | gui/scene/backplot_layer.py:139-142 | two points that exceed a cap of zero |
| Backplot.CallKeepsContinuity | gui/scene/backplot_layer.py:119-146 | segments stay one unbroken polyline that ends at the last recorded point, through coalescing and pruning |
| Backplot.RecordedExactlyWhen | gui/scene/backplot_layer.py:128-146 | a point is passed over if and only if the sum of the three squared differences is below the squared minimum; any other is remembered and sends one operation |
| Backplot.FarAlongAnAxisIsRecorded | gui/scene/backplot_layer.py:128-130 | a point at least the minimum away along x, y or z is recorded |
| Backplot.RepeatedPoint | gui/scene/backplot_layer.py:128-130 | the last point again is not recorded, unless there is no minimum |
| Backplot.AxesCountAlike | gui/scene/backplot_layer.py:128-130 | exchanging two axes in both points does not change whether a point is recorded |
| Backplot.CoalescesExactlyWhen | gui/scene/backplot_layer.py:182-198 | a segment is lengthened exactly when both motions are more than 1e-6 along the same one axis, the same way, and still along the others |
| Backplot.OldestSegmentsGo | gui/scene/backplot_layer.py:139-142 | a new segment is appended, and the newest ones up to the cap are kept |
| Backplot.LastSegmentGrows | gui/scene/backplot_layer.py:132-137 | a coalescing motion moves the end of the last segment only |
| Backplot.NearestMillionth | gui/scene/backplot_layer.py:253-253 | each number is sent to the nearest millionth, halves to the even one |
| Backplot.SegmentNumbers | gui/scene/backplot_layer.py:250-253 | of a segment the start's x, y, z are sent and then the end's |
| Backplot.NumbersOfMany | gui/scene/backplot_layer.py:250-253 | segment after segment |
| Backplot.FullExactlyAfterForty | gui/scene/backplot_layer.py:167-180 | in any run: a recorded point sends a full operation if and only if the line is new, the path is pruned, or 40 incremental ones went out since the last |
| Backplot.ClearStartsANewLine | gui/scene/backplot_layer.py:105-146 | after a clear the first point is only remembered, and the next recorded one sends its one segment in full for a new line object |
| AtcRack.StepIsDetection | src/core/atc_rack_model.cpp:109-144 | one position toggles the clamp exactly when it lies the threshold below (clamped) or above (open) an earlier position since the last toggle |
| AtcRack.ClampIsDrawdownDetector | src/core/atc_rack_model.cpp:109-144 | over any positions the clamp is the drawdown detector defined by maxima and minima since the last toggle |
| AtcRack.TogglesNeedTravel | src/core/atc_rack_model.cpp:121-142 | toggles times threshold never exceed the total travel |
| AtcRack.OpeningConservesExactlyWhen | src/core/atc_rack_model.cpp:146-161 | opening keeps the multiset of tools if and only if the reached pocket is not occupied, and then moves the tool there |
| AtcRack.ClosingConserves | src/core/atc_rack_model.cpp:163-177 | closing keeps the multiset of tools |
| AtcRack.ReconcilingConserves | src/core/atc_rack_model.cpp:211-224 | taking the firmware's active tool keeps the multiset of tools |
| AtcRack.OpenThenCloseRestores | src/core/atc_rack_model.cpp:146-177 | opening over an empty pocket and closing again restores spindle and occupancy |
| AtcRack.CloseThenOpenRestores | src/core/atc_rack_model.cpp:146-177 | closing and opening again restores everything when only one pocket is in reach |
| AtcRack.PlacesOverlapExactlyWhen | src/core/atc_rack_model.cpp:99-105 | two placed pockets are in reach of one spindle position if and only if they have the same number or are 0 and -1 |
| AtcRack.OnePocketInReach | src/core/atc_rack_model.cpp:99-105 | pockets with distinct non-negative numbers, as placed, are never in reach together, so that closing and opening restores the rack |
| AtcRack.OpeningLoses | src/core/atc_rack_model.cpp:146-161 | opening never invents a tool, and loses one exactly when it drops one on another |
| AtcRack.EveryToolIsAccountedFor | src/core/atc_rack_model.cpp:39-191 | over any run of all operations: the tools held, taken out and overwritten at the end are those held at first and put in |
| AtcRack.RunConservesExactlyWhen | src/core/atc_rack_model.cpp:39-191 | over any such run no tool is duplicated, and none goes missing if and only if the clamp never opens over an occupied pocket with a tool in the spindle |
| AtcRack.MotionsConserveExactlyWhen | src/core/atc_rack_model.cpp:88-177 | over any run of clamp motions and configurations, with new clamp actions and moved pockets, no tool is invented, and all are kept if and only if the clamp never opens over an occupied pocket |
| AtcRack.OverwrittenToolIsGone | src/core/atc_rack_model.cpp:146-161 | one stocked pocket under a loaded spindle, and a clamp that moves a millimetre: the tool in the pocket is gone |
| AtcRack.AtTransferExactlyWhen | src/core/atc_rack_model.cpp:28-35 | the spindle reaches a pocket exactly within 3.8 mm in x and y and 3 mm in z |
| AtcRack.MovedClampExchanges | src/core/atc_rack_model.cpp:109-177 | in millimetres: a clamped clamp that has come down by at least 0.05 mm and 0.8 of its action opens over the first pocket in reach, an open one that has gone up so far closes on the first full one; otherwise the rack stays |
| AtcRack.DirectExchange | src/core/atc_rack_model.cpp:146-177 | opening and closing directly exchange tools in the same way |
| AtcRack.ConfiguredRow | src/core/atc_rack_model.cpp:93-106 | an available rack stands in a row along y, 30 mm apart, pocket 0 at 210 mm; any other keeps its places |
| AtcRack.ActiveToolIsTaken | src/core/atc_rack_model.cpp:211-224 | an empty spindle takes the active tool from the first pocket that holds it |
| AtcRack.NoToolIsTaken | src/core/atc_rack_model.cpp:211-224 | without an active tool, with a full spindle, or when no pocket holds it, nothing is taken |
| AtcRack.ResolvedByNumber | src/core/physical_tooling.cpp:39-68 | kind and tip by tool number: 999990 and above, 0, and all others, unless given |
| AtcRack.StockedPocket | src/core/atc_rack_model.cpp:49-74 | stocking fills the first pocket with the number where it stands, or adds one |
| AtcRack.AtcRackModel.constructor | src/core/atc_rack_model.cpp:39-47 | an empty rack, clamped, with a clamp action of one millimetre |
| AtcRack.AtcRackModel.Clear | src/core/atc_rack_model.cpp:39-47 | back to the cleared model |
| AtcRack.AtcRackModel.ClearPocketTools | src/core/atc_rack_model.cpp:76-79 | pockets and spindle are emptied, the clamp stays as it is |
| AtcRack.AtcRackModel.SetSpindleTool | src/core/atc_rack_model.cpp:179-191 | the spindle gets a tool with its resolved kind, or none |
| AtcRack.AtcRackModel.SetPocketTool | src/core/atc_rack_model.cpp:49-74 | the first pocket with the number gets the tool and its resolved kind, or a new pocket is added; numbers stay distinct |
| AtcRack.AtcRackModel.ClampOpen | src/core/atc_rack_model.cpp:146-161 | the loop puts the tool into the first pocket in reach |
| AtcRack.AtcRackModel.ClampClose | src/core/atc_rack_model.cpp:163-177 | the loop takes the tool of the first occupied pocket in reach |
| AtcRack.AtcRackModel.ReconcileSpindleTool | src/core/atc_rack_model.cpp:211-224 | the loop takes the active tool from the first occupied pocket that has it |
| AtcRack.AtcRackModel.Configure | src/core/atc_rack_model.cpp:88-107 | reconciles first; only an available rack of the right machine is placed |
| AtcRack.AtcRackModel.UpdateClampPosition | src/core/atc_rack_model.cpp:109-144 | the clamp steps, and the rack opens or closes exactly when it toggles |
| MotionTelemetry.MotionTelemetry.constructor | include/sim/motion_telemetry.hpp:60-72 | the defaults: no sink, 30 observations, 10 ms, nothing sent |
| MotionTelemetry.MotionTelemetry.Reset | src/core/motion_telemetry.cpp:51-62 | forgets everything but the sink and the intervals |
| MotionTelemetry.MotionTelemetry.SetSink | src/core/motion_telemetry.cpp:64-67 | a new sink starts from a reset emitter |
| MotionTelemetry.MotionTelemetry.SetIntervalTicks | src/core/motion_telemetry.cpp:69-69 | at least one observation |
| MotionTelemetry.MotionTelemetry.SetIntervalUs | src/core/motion_telemetry.cpp:71-71 | at least one microsecond |
| MotionTelemetry.MotionTelemetry.Remember | src/core/motion_telemetry.cpp:156-163 | the history loop: forgotten when the clock went back, otherwise extended and trimmed to the window |
| MotionTelemetry.MotionTelemetry.MeasureSpeeds | src/core/motion_telemetry.cpp:165-176 | the loop over axes: every speed over the window, and whether any is visible |
| MotionTelemetry.MotionTelemetry.TakeNumber | src/core/motion_telemetry.cpp:135-144 | readings and time of a sample are remembered, and it takes the next number |
| MotionTelemetry.MotionTelemetry.Emit | src/core/motion_telemetry.cpp:135-178 | the sample that is sent, and all that is remembered of it |
| MotionTelemetry.MotionTelemetry.Observe | src/core/motion_telemetry.cpp:73-179 | all early returns of an observation, forced or not, and the whole state after each |
| MotionTelemetry.SendsExactlyWhen | src/core/motion_telemetry.cpp:86-134 | an unforced observation sends a sample if and only if it is not the first sight of the axes, its interval is over or nothing was sent yet, and steps differ, a spindle reading is off by 10 rpm, or the last sample showed motion |
| MotionTelemetry.StaleForLessThanAnInterval | src/core/motion_telemetry.cpp:104-134 | after every observation but the first, what was last sent agrees with the reading, at rest, or was sent less than an interval ago |
| MotionTelemetry.TrimmingFindsTheStart | src/core/motion_telemetry.cpp:160-163 | dropping history from the front finds the latest sample at least 100 ms old, or the oldest since the clock last went back |
| MotionTelemetry.RunsAreTruthful | src/core/motion_telemetry.cpp:135-178 | over any run from a reset: samples are numbered consecutively from one, and every sample's speeds are displacements over exactly its window |
| MotionTelemetry.SpeedsKeepTheLimit | src/core/motion_telemetry.cpp:165-175 | a reported speed is at most any limit the displacement kept since the start of the window |
| MotionTelemetry.SpeedsAreExact | src/core/motion_telemetry.cpp:167-175 | a reported speed times the window is the displacement; a window shorter than 100 ms counts as 100 ms, so a single step shows at most 600 times its length per minute |
| MotionTelemetry.NoSpeedIsOverstated | src/core/motion_telemetry.cpp:156-176 | over any run, an axis that keeps a speed limit from sample to sample is never reported faster |
| MotionTelemetry.EachSampleIsOwed | src/core/motion_telemetry.cpp:108-176 | at constant readings each sample reduces what is still owed, and the last one shows zero speeds |
| MotionTelemetry.RestTakesAtMostTwoSamples | src/core/motion_telemetry.cpp:104-134 | once steps and spindle are constant, at most two more samples follow in any run, a second one with all speeds zero; when nothing is owed the last one shows every speed below 0.05 |
| MotionTelemetry.SpinningFlagMayStayWrong | src/core/motion_telemetry.cpp:100-134 | a changed spinning flag alone is never sent, for however long |
| MotionTelemetry.SpinningFlagWitness | src/core/motion_telemetry.cpp:100-134 | a run from the default emitter: seen twice at 0.4 rpm, which sends a sample, then at 0.6 rpm an interval later; the flag has changed, and nothing is sent however often it is seen |
| MotionTelemetry.RestIsReported | src/core/motion_telemetry.cpp:104-134 | two due observations at rest are enough for the resting sample to be sent |
| MotionTelemetry.SentInNumbers | src/core/motion_telemetry.cpp:73-134 | in raw readings, clocks and intervals: when an observation sends a sample; the first five axes count |
| MotionTelemetry.MoveIsSentByCount | src/core/motion_telemetry.cpp:91-126 | before the time is up, a machine that moves at every observation is shown after exactly intervalTicks of them |
| MotionTelemetry.SampleShows | src/core/motion_telemetry.cpp:143-178 | a sample shows the first five axes and both spindle readings under the next number; whether a speed of 0.05 was shown is remembered |
| MotionTelemetry.ObservationRemembers | src/core/motion_telemetry.cpp:86-141 | what every observation remembers, with and without a sample |
| MotionTelemetry.SpeedsInNumbers | src/core/motion_telemetry.cpp:156-176 | over any run from a reset: every speed times the minutes since the latest sample at least 100 ms older, or the oldest kept one, is the distance |
| Crc16.ComputeCrc | include/sim/crc16.hpp:29-38 | the byte and bit loops compute the CRC defined byte by byte |
| Crc16.CrcLinear | include/sim/crc16.hpp:29-38 | the CRC of the xor of two messages of one length is the xor of their CRCs |
| Crc16.AdjacentErrorsAreDetected | include/sim/crc16.hpp:29-38 | messages that differ only in one byte or two neighbouring bytes have different CRCs |
| Crc16.OneByteErrorIsDetected | include/sim/crc16.hpp:29-38 | changing one byte changes the CRC |
| Crc16.AppendedCrcCancels | include/sim/crc16.hpp:29-38 | a message followed by its CRC, high byte first, has CRC zero |
| Crc16.CrcIsARemainder | include/sim/crc16.hpp:29-38 | the message times x^16 is a multiple of x^16 + x^12 + x^5 + 1 plus the CRC, coefficient by coefficient |
| Crc16.CrcIsTheRemainder | include/sim/crc16.hpp:29-38 | no other 16-bit value is such a remainder |
| Crc16.CrcOfOne | include/sim/crc16.hpp:35-35 | the CRC of the one-byte message 1 is 0x1021 |
| Eeprom.EepromDevice.constructor | include/sim/i2c_eeprom.hpp:49-92 | 4096 bytes of 0xff, pages of 32, bus addresses 0xa0 and 0xa1, no transaction |
| Eeprom.EepromDevice.Configure | src/firmware/i2c_sim.cpp:37-52 | zero size and page size are replaced, the store is filled, the transaction ends; the addresses stay |
| Eeprom.EepromDevice.Stop | src/firmware/i2c_sim.cpp:128-132 | ends the transaction, keeps the addresses |
| Eeprom.EepromDevice.Select | src/firmware/i2c_sim.cpp:83-93 | 0 for exactly its two addresses, which begin a transaction, in read mode for the read address; otherwise 1, and the device is not selected |
| Eeprom.EepromDevice.Poke | src/firmware/i2c_sim.cpp:134-137 | one byte at the address modulo the size |
| Eeprom.EepromDevice.Write | src/firmware/i2c_sim.cpp:95-120 | a bus byte is an address, an ignored byte, a high or low address byte, or data, by the state of the transaction |
| Eeprom.EepromDevice.ReadByte | src/firmware/i2c_sim.cpp:122-126 | the byte at the current address, which moves on modulo 2^16 |
| Eeprom.EepromDevice.ConfigureFactorySettings | src/firmware/i2c_sim.cpp:141-158 | six record bytes and their CRC, low byte first, from address 512 on |
| Eeprom.AddressingSetsTheAddress | src/firmware/i2c_sim.cpp:95-115 | the first three bytes of a write transaction set the address and find its page, whatever went before |
| Eeprom.NextStaysInPage | src/firmware/i2c_sim.cpp:191-194 | the next write address wraps at the end of the page |
| Eeprom.DataStaysInPage | src/firmware/i2c_sim.cpp:95-120 | the invariant of a page write after any number of data bytes |
| Eeprom.PageWriteFillsItsPage | src/firmware/i2c_sim.cpp:83-139 | an n-byte write leaves its last min(n, page) bytes at their wrapped places in the page and changes no other byte |
| Eeprom.IndistinctAddressesStoreNothing | src/firmware/i2c_sim.cpp:83-102 | with equal bus addresses no write transaction stores anything, whatever its data |
| Eeprom.WritesAreStoredExactlyWhen | src/firmware/i2c_sim.cpp:83-120 | on any device, every byte written to any address stands there modulo the size if and only if the two bus addresses differ |
| Eeprom.ReadsRunOn | src/firmware/i2c_sim.cpp:122-126 | successive reads return the store sequentially modulo the size |
| Eeprom.RandomReadRunsThroughTheStore | src/firmware/i2c_sim.cpp:83-139 | a random-address read returns the store from its address on, around the end of the device |
| Eeprom.WriteThenReadReturnsTheData | src/firmware/i2c_sim.cpp:83-139 | a write that stays in its page is what a read from the same address returns |
| Eeprom.SpilledBytesAreNotReadBack | src/firmware/i2c_sim.cpp:187-194 | bytes that wrapped are not read back behind the others: there the read returns the old contents of the next page |
| Eeprom.PokedStretch | src/firmware/i2c_sim.cpp:153-157 | each byte of a stretch no longer than the device can be read back |
| Eeprom.StretchIsIntactExactlyWhen | src/firmware/i2c_sim.cpp:134-139 | stretches of n bytes survive being written if and only if the device has room for n bytes |
| Eeprom.FactoryRecordCancels | src/firmware/i2c_sim.cpp:141-158 | from address 512 on, modulo the size, the record reads back, then its CRC low byte first; with the CRC high byte first the CRC is zero |
| Eeprom.PageWriteInNumbers | src/firmware/i2c_sim.cpp:83-139 | an addressed write in addresses: the last page of the bytes stands in the page of high * 256 + low, each at its address modulo the page size; exactly the bytes not reached are as before |
| Eeprom.RandomReadInNumbers | src/firmware/i2c_sim.cpp:83-139 | a random read of high * 256 + low returns the store from there on, modulo the size |
| Eeprom.NextAddressInNumbers | src/firmware/i2c_sim.cpp:191-194 | the next write address in unsigned 64-bit and 16-bit arithmetic, for any page size |
| Eeprom.PageInNumbers | src/firmware/i2c_sim.cpp:112-112 | a page starts at the address less its remainder by the page size |

## Left out

- Watchdog: it counts the cycles of each jump and may expire at the end of one; the model has it disabled.
- Real time: pacing against the host clock. The telemetry emitter reads that clock as part of its input.
- Interrupt handlers: they are finite action trees, so a handler that raises itself again for ever is not modelled, and
  neither is an empty handler. Timer registers appear as the bits the scheduler looks at.
- Interrupts.DispatchAllRunsEachOnce: handlers that call the timer scheduler themselves (advancing time, or raising a
  match directly) are not modelled. A timer's handler decides on entry what it does, so it does not react to what a
  dispatch from inside itself changed; what a device's handler does is fixed when its interrupt is raised.
- Scheduler.Machine.AdvanceCycles: an advance that never ends is not described beyond its turns. For handlers that are
  neither calm nor tame, such as ones that enable interrupts or start a timer that stands at its match, the loop may
  serve matches again at the same cycle where stepping serves them in the next one; for them the comparison with
  stepping is not made.
- TransportFormatter.Formatter.FormatEntry: shows lines as (type, payload, length) or plain bytes; the readable text of
  a line, its time stamp, packet names, the log line's regular expression and the entry store are not modelled.
- PrintableBytes.DecodePrintable: digits and blanks outside Latin text, which the original's integer parser also
  accepts, are not modelled.
- UsTicker.UsTickerState.DispatchDueEvents: handlers that insert an event while it is queued, which leaves a loop behind
  (see InsertEvent), that dispatch from inside themselves, or that insert due events for ever.
- StepperBoard.Board.Apply: agreement is promised for wired boards (endstop pins are inputs, private to their axis and
  distinct from step and direction pins); direct assignments to a port's level register bypass the axes in the original
  and are not modelled.
- StepperBoard.StepperAxis.ResetPosition: forgets the remembered levels even when a pin is high, so it is not an event
  of the agreement theorem.
- Backplot: the history store, moving the line object, forgetting the last position, the drawing code and several
  layers sharing a history.
- AtcRack: probe queries, and the sorted copy of the pockets.
- MotionTelemetry.MotionTelemetry.Observe: firmware inputs of a sample other than axes and spindle are not modelled;
  the sink is the returned sample.
- Eeprom: the persistent file, and a device whose pages do not fill it or whose size does not divide 65536 in the
  transaction theorems.
- Rounding of `double` arithmetic, everywhere.
- Constant tables, geometry, settings, process control, protocol encoders and views: nothing in them spans operations.
