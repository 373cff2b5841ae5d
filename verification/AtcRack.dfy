/** The tool changer: a clamp that opens and closes with hysteresis as its motor travels, and a rack of pockets that
    exchanges tools with the spindle when the clamp does. */
module AtcRack {
  import opened Options

  const DETECTOR_TOLERANCE: real := 3.8
  const TRANSFER_Z_TOLERANCE: real := 3.0

  /* ----- The clamp ----- */

  function Abs(x: real): real {
    if x < 0.0 then -x else x
  }

  function Max(x: real, y: real): real {
    if x < y then y else x
  }

  function Min(x: real, y: real): real {
    if y < x then y else x
  }

  datatype Clamp = Clamp(last: Option<real>, reference: Option<real>, clamped: bool)

  function Threshold(clampAction: real): (t: real)
    ensures t >= 0.05
  {
    Max(0.05, Abs(clampAction) * 0.8)
  }

  /** One reported position: the clamp after it, and whether it toggled. */
  function ClampStep(k: Clamp, threshold: real, position: real): (Clamp, bool) {
    if k.last == None then (Clamp(Some(position), Some(position), k.clamped), false)
    else
      var reference := if k.reference == None then position else k.reference.value;
      var delta := position - k.last.value;
      if k.clamped && delta > 0.0 then (Clamp(Some(position), Some(Max(reference, position)), true), false)
      else if !k.clamped && delta < 0.0 then (Clamp(Some(position), Some(Min(reference, position)), false), false)
      else if k.clamped && delta < 0.0 && reference - position >= threshold then
        (Clamp(Some(position), Some(position), false), true)
      else if !k.clamped && delta > 0.0 && position - reference >= threshold then
        (Clamp(Some(position), Some(position), true), true)
      else (Clamp(Some(position), Some(reference), k.clamped), false)
  }

  datatype Run = Run(clamp: Clamp, toggles: nat)

  /** The clamp after a sequence of positions, and how often it toggled. */
  function AfterPositions(start: Clamp, threshold: real, positions: seq<real>): Run {
    if positions == [] then Run(start, 0)
    else
      var before := AfterPositions(start, threshold, positions[..|positions| - 1]);
      var (clamp, toggled) := ClampStep(before.clamp, threshold, positions[|positions| - 1]);
      Run(clamp, before.toggles + (if toggled then 1 else 0))
  }

  /** Position n is at least the threshold below an earlier position since the last toggle (clamped), or above one
      (open). */
  ghost predicate Tripped(positions: seq<real>, since: nat, n: nat, clamped: bool, threshold: real)
    requires since <= n < |positions|
  {
    exists i | since <= i < n ::
      if clamped then positions[i] - positions[n] >= threshold else positions[n] - positions[i] >= threshold
  }

  /** The drawdown detector that defines when the clamp should toggle: the index of the last toggle (or the first
      position), and the state since then. */
  ghost function Detected(positions: seq<real>, clamped: bool, threshold: real): (d: (nat, bool))
    requires positions != []
    ensures d.0 < |positions|
  {
    if |positions| == 1 then (0, clamped)
    else
      var n := |positions| - 1;
      var before := Detected(positions[..n], clamped, threshold);
      if Tripped(positions, before.0, n, before.1, threshold) then (n, !before.1) else before
  }

  /** The reference position is the running extreme since the last toggle, and nothing has tripped since. */
  ghost predicate Tracks(k: Clamp, positions: seq<real>, since: nat, threshold: real)
    requires since < |positions|
  {
    && k.last == Some(positions[|positions| - 1]) && k.reference.Some?
    && (exists i | since <= i < |positions| :: k.reference.value == positions[i])
    && (forall i | since <= i < |positions| ::
          if k.clamped then positions[i] <= k.reference.value else positions[i] >= k.reference.value)
    && (if k.clamped then k.reference.value - positions[|positions| - 1] < threshold
        else positions[|positions| - 1] - k.reference.value < threshold)
  }

  /** The clamp toggles at a position exactly if the detector trips there. */
  lemma StepIsDetection(k: Clamp, positions: seq<real>, since: nat, threshold: real, position: real)
    requires since < |positions| && threshold > 0.0 && Tracks(k, positions, since, threshold)
    ensures var (k', toggled) := ClampStep(k, threshold, position);
            var all, n := positions + [position], |positions|;
            && (toggled <==> Tripped(all, since, n, k.clamped, threshold))
            && (k'.clamped <==> (k.clamped != toggled))
            && Tracks(k', all, if toggled then n else since, threshold)
  {
    var all, n := positions + [position], |positions|;
    var m :| since <= m < n && k.reference.value == positions[m];
    assert forall i | 0 <= i < n :: all[i] == positions[i];
    assert all[m] == k.reference.value && all[n] == position;
  }

  /** For a fixed clamp action the clamp is exactly a drawdown detector: over any positions, it opens at the first one
      at least the threshold below the highest since it closed, and closes at the first one at least the threshold
      above the lowest since it opened. */
  lemma {:induction false} ClampIsDrawdownDetector(clamped: bool, threshold: real, positions: seq<real>)
    requires positions != [] && threshold > 0.0
    ensures var k, d := AfterPositions(Clamp(None, None, clamped), threshold, positions).clamp,
                        Detected(positions, clamped, threshold);
            k.clamped == d.1 && Tracks(k, positions, d.0, threshold)
  {
    hide ClampStep, Tracks, Tripped;
    var n := |positions| - 1;
    if n == 0 {
      FirstPosition(clamped, threshold, positions);
    } else {
      var front := positions[..n];
      ClampIsDrawdownDetector(clamped, threshold, front);
      StepIsDetection(AfterPositions(Clamp(None, None, clamped), threshold, front).clamp, front,
                      Detected(front, clamped, threshold).0, threshold, positions[n]);
      assert front + [positions[n]] == positions;
    }
  }

  lemma FirstPosition(clamped: bool, threshold: real, positions: seq<real>)
    requires |positions| == 1 && threshold > 0.0
    ensures var k := AfterPositions(Clamp(None, None, clamped), threshold, positions).clamp;
            k.clamped == clamped && Tracks(k, positions, 0, threshold)
  {
    assert AfterPositions(Clamp(None, None, clamped), threshold, positions[..0]).clamp == Clamp(None, None, clamped);
    assert positions[0] == positions[|positions| - 1];
  }

  function Travel(positions: seq<real>): real {
    if |positions| < 2 then 0.0
    else Travel(positions[..|positions| - 1]) + Abs(positions[|positions| - 1] - positions[|positions| - 2])
  }

  /** The reference is on the far side of the last position. */
  predicate Sided(k: Clamp) {
    && k.last.Some? && k.reference.Some?
    && (if k.clamped then k.reference.value >= k.last.value else k.reference.value <= k.last.value)
  }

  function Lag(k: Clamp): real
    requires Sided(k)
  {
    Abs(k.reference.value - k.last.value)
  }

  lemma StepCosts(k: Clamp, threshold: real, position: real)
    requires Sided(k)
    ensures var (k', toggled) := ClampStep(k, threshold, position);
            && Sided(k') && k'.last == Some(position)
            && Lag(k') + (if toggled then threshold else 0.0) <= Lag(k) + Abs(position - k.last.value)
  {
  }

  lemma OneMore(n: nat, threshold: real)
    ensures (n + 1) as real * threshold == n as real * threshold + threshold
  {
  }

  /** Toggling costs travel: the toggles times the threshold, plus how far the clamp already is from its reference,
      never exceed the distance travelled. */
  lemma {:induction false} TogglesNeedTravel(clamped: bool, threshold: real, positions: seq<real>)
    requires positions != [] && threshold > 0.0
    ensures var run := AfterPositions(Clamp(None, None, clamped), threshold, positions);
            && Sided(run.clamp) && run.clamp.last == Some(positions[|positions| - 1])
            && run.toggles as real * threshold + Lag(run.clamp) <= Travel(positions)
  {
    hide ClampStep, Abs, Lag;
    var n := |positions| - 1;
    if n == 0 {
      FirstStepIsFree(clamped, threshold, positions);
    } else {
      var before := AfterPositions(Clamp(None, None, clamped), threshold, positions[..n]);
      TogglesNeedTravel(clamped, threshold, positions[..n]);
      StepCosts(before.clamp, threshold, positions[n]);
      OneMore(before.toggles, threshold);
      assert Travel(positions) == Travel(positions[..n]) + Abs(positions[n] - positions[n - 1]);
    }
  }

  lemma FirstStepIsFree(clamped: bool, threshold: real, positions: seq<real>)
    requires |positions| == 1
    ensures var run := AfterPositions(Clamp(None, None, clamped), threshold, positions);
            Sided(run.clamp) && run.clamp.last == Some(positions[0]) && run.toggles == 0 && Lag(run.clamp) == 0.0
  {
    assert AfterPositions(Clamp(None, None, clamped), threshold, positions[..0]) == Run(Clamp(None, None, clamped), 0);
  }

  /* ----- The rack ----- */

  datatype ToolKind = Unspecified | CuttingTool | StockZProbe | ThreeAxisProbe

  datatype Tool = Tool(number: int, lengthMm: real, kind: ToolKind, tipMm: real)

  datatype Point = Point(x: real, y: real, z: real)

  /** A pocket remembers the data of the tool it last held; the tool is in it only when occupied. */
  datatype Pocket = Pocket(id: int, tool: Tool, occupied: bool, position: Point)

  predicate CloseEnough(a: real, b: real, tolerance: real) {
    Abs(a - b) <= tolerance
  }

  predicate AtTransfer(spindleAt: Point, pocket: Pocket) {
    && CloseEnough(spindleAt.x, pocket.position.x, DETECTOR_TOLERANCE)
    && CloseEnough(spindleAt.y, pocket.position.y, DETECTOR_TOLERANCE)
    && CloseEnough(spindleAt.z, pocket.position.z, TRANSFER_Z_TOLERANCE)
  }

  /** The first pocket at the spindle, or the number of pockets; with `full`, the first occupied one. */
  function PocketAt(pockets: seq<Pocket>, spindleAt: Point, full: bool): (k: nat)
    ensures k <= |pockets|
    ensures forall i | 0 <= i < k :: !(AtTransfer(spindleAt, pockets[i]) && (full ==> pockets[i].occupied))
    ensures k < |pockets| ==> AtTransfer(spindleAt, pockets[k]) && (full ==> pockets[k].occupied)
  {
    if pockets == [] then 0
    else if AtTransfer(spindleAt, pockets[0]) && (full ==> pockets[0].occupied) then 0
    else 1 + PocketAt(pockets[1..], spindleAt, full)
  }

  function PocketWith(pockets: seq<Pocket>, number: int): (k: nat)
    ensures k <= |pockets|
    ensures forall i | 0 <= i < k :: !(pockets[i].occupied && pockets[i].tool.number == number)
    ensures k < |pockets| ==> pockets[k].occupied && pockets[k].tool.number == number
  {
    if pockets == [] then 0
    else if pockets[0].occupied && pockets[0].tool.number == number then 0
    else 1 + PocketWith(pockets[1..], number)
  }

  datatype Rack = Rack(pockets: seq<Pocket>, spindle: Option<Tool>)

  /** The opening clamp drops its tool into the first pocket at the spindle. */
  function Opened(r: Rack, spindleAt: Point): Rack {
    var k := PocketAt(r.pockets, spindleAt, false);
    if r.spindle == None || k == |r.pockets| then r
    else Rack(r.pockets[k := r.pockets[k].(tool := r.spindle.value, occupied := true)], None)
  }

  /** The closing clamp grips the tool of the first occupied pocket at the spindle. */
  function Closed(r: Rack, spindleAt: Point): Rack {
    var k := PocketAt(r.pockets, spindleAt, true);
    if r.spindle.Some? || k == |r.pockets| then r
    else Rack(r.pockets[k := r.pockets[k].(occupied := false)], Some(r.pockets[k].tool))
  }

  /** The firmware says which tool is active: the spindle takes it from the rack. */
  function Reconciled(r: Rack, activeTool: int): Rack {
    var k := PocketWith(r.pockets, activeTool);
    if r.spindle.Some? || activeTool < 0 || k == |r.pockets| then r
    else Rack(r.pockets[k := r.pockets[k].(occupied := false)], Some(r.pockets[k].tool))
  }

  function InPockets(pockets: seq<Pocket>): multiset<Tool> {
    if pockets == [] then multiset{}
    else
      var last := pockets[|pockets| - 1];
      InPockets(pockets[..|pockets| - 1]) + (if last.occupied then multiset{last.tool} else multiset{})
  }

  function InSpindle(spindle: Option<Tool>): multiset<Tool> {
    if spindle.Some? then multiset{spindle.value} else multiset{}
  }

  /** All tools the machine holds. */
  function Tools(r: Rack): multiset<Tool> {
    InPockets(r.pockets) + InSpindle(r.spindle)
  }

  function InPocket(p: Pocket): multiset<Tool> {
    if p.occupied then multiset{p.tool} else multiset{}
  }

  lemma Exchanged(a: multiset<Tool>, b: multiset<Tool>, c: multiset<Tool>, d: multiset<Tool>, more: multiset<Tool>)
    requires a + b == c + d
    ensures (a + more) + b == (c + more) + d
  {
    assert (a + more) + b == (a + b) + more && (c + more) + d == (c + d) + more;
  }

  lemma {:induction false} PocketReplaced(pockets: seq<Pocket>, k: nat, p: Pocket)
    requires k < |pockets|
    ensures InPockets(pockets[k := p]) + InPocket(pockets[k]) == InPockets(pockets) + InPocket(p)
  {
    var last := |pockets| - 1;
    if k == last {
      assert pockets[k := p][..last] == pockets[..last];
    } else {
      PocketReplaced(pockets[..last], k, p);
      var changed := pockets[k := p];
      assert changed[..last] == pockets[..last][k := p] && changed[last] == pockets[last];
      Exchanged(InPockets(changed[..last]), InPocket(pockets[k]), InPockets(pockets[..last]), InPocket(p),
                InPocket(pockets[last]));
    }
  }

  /** Opening loses a tool in exactly one case, dropping a tool into an occupied pocket, and then exactly the tool that
      was in the pocket. */
  lemma OpeningConservesExactlyWhen(r: Rack, spindleAt: Point)
    ensures var k := PocketAt(r.pockets, spindleAt, false);
            var overwrites := r.spindle.Some? && k < |r.pockets| && r.pockets[k].occupied;
            && (Tools(Opened(r, spindleAt)) == Tools(r) <==> !overwrites)
            && (overwrites ==> Tools(Opened(r, spindleAt)) + multiset{r.pockets[k].tool} == Tools(r))
  {
    hide Tools, Opened, InPocket;
    var k := PocketAt(r.pockets, spindleAt, false);
    OpenedTools(r, spindleAt);
    if r.spindle.Some? && k < |r.pockets| {
      OneGone(Tools(Opened(r, spindleAt)), r.pockets[k]);
    }
  }

  /** What is held before an opening, and after it together with what the pocket held. */
  lemma OpenedTools(r: Rack, spindleAt: Point)
    ensures var k := PocketAt(r.pockets, spindleAt, false);
            Tools(r) == if r.spindle.Some? && k < |r.pockets| then Tools(Opened(r, spindleAt)) + InPocket(r.pockets[k])
                        else Tools(Opened(r, spindleAt))
  {
    hide InPockets, PocketAt;
    var k := PocketAt(r.pockets, spindleAt, false);
    if r.spindle.Some? && k < |r.pockets| {
      PocketReplaced(r.pockets, k, r.pockets[k].(tool := r.spindle.value, occupied := true));
    }
  }

  lemma OneGone(left: multiset<Tool>, p: Pocket)
    ensures p.occupied ==> InPocket(p) == multiset{p.tool} && left + InPocket(p) != left
    ensures !p.occupied ==> left + InPocket(p) == left
  {
    assert (left + multiset{p.tool})[p.tool] == left[p.tool] + 1;
  }

  predicate DropsOnTool(r: Rack, spindleAt: Point) {
    var k := PocketAt(r.pockets, spindleAt, false);
    r.spindle.Some? && k < |r.pockets| && r.pockets[k].occupied
  }

  lemma OpeningLoses(r: Rack, spindleAt: Point)
    ensures Tools(Opened(r, spindleAt)) <= Tools(r)
    ensures Tools(Opened(r, spindleAt)) == Tools(r) <==> !DropsOnTool(r, spindleAt)
  {
    OpeningConservesExactlyWhen(r, spindleAt);
  }

  /** Closing and reconciling only move tools. */
  lemma ClosingConserves(r: Rack, spindleAt: Point)
    ensures Tools(Closed(r, spindleAt)) == Tools(r)
  {
    var k := PocketAt(r.pockets, spindleAt, true);
    if r.spindle == None && k < |r.pockets| {
      PocketReplaced(r.pockets, k, r.pockets[k].(occupied := false));
    }
  }

  lemma ReconcilingConserves(r: Rack, activeTool: int)
    ensures Tools(Reconciled(r, activeTool)) == Tools(r)
  {
    var k := PocketWith(r.pockets, activeTool);
    if r.spindle == None && k < |r.pockets| {
      PocketReplaced(r.pockets, k, r.pockets[k].(occupied := false));
    }
  }

  /** Dropping a tool into an empty pocket and gripping again gives the spindle its tool back and leaves every pocket
      as occupied as before; only the pocket's memory of its last tool has changed. */
  lemma OpenThenCloseRestores(r: Rack, spindleAt: Point)
    requires r.spindle.Some?
    requires var k := PocketAt(r.pockets, spindleAt, false); k < |r.pockets| && !r.pockets[k].occupied
    ensures var r', k := Closed(Opened(r, spindleAt), spindleAt), PocketAt(r.pockets, spindleAt, false);
            && r'.spindle == r.spindle
            && r'.pockets == r.pockets[k := r.pockets[k].(tool := r.spindle.value)]
  {
    var k := PocketAt(r.pockets, spindleAt, false);
    var dropped := Opened(r, spindleAt);
    var m := PocketAt(dropped.pockets, spindleAt, true);
    assert m == k by {
      assert forall i | 0 <= i < k :: dropped.pockets[i] == r.pockets[i];
      assert AtTransfer(spindleAt, dropped.pockets[k]) && dropped.pockets[k].occupied;
    }
  }

  /** Gripping a tool and dropping it again restores the rack when only one pocket is in reach. */
  lemma CloseThenOpenRestores(r: Rack, spindleAt: Point)
    requires r.spindle == None
    requires forall i, j | 0 <= i < j < |r.pockets| ::
               !(AtTransfer(spindleAt, r.pockets[i]) && AtTransfer(spindleAt, r.pockets[j]))
    ensures Opened(Closed(r, spindleAt), spindleAt) == r
  {
    var k := PocketAt(r.pockets, spindleAt, true);
    if k < |r.pockets| {
      var closed := Closed(r, spindleAt);
      var m := PocketAt(closed.pockets, spindleAt, false);
      assert m == k by {
        assert AtTransfer(spindleAt, closed.pockets[k]);
        assert forall i | 0 <= i < k :: closed.pockets[i] == r.pockets[i];
      }
      assert closed.pockets[k := r.pockets[k]] == r.pockets;
    }
  }

  /* ----- Where pockets are ----- */

  datatype RackConfig = RackConfig(anchorX: real, anchorY: real, offsetX: real, offsetY: real, rackZ: real,
                                   clampAction: real, carveraC1: bool, atcAvailable: bool, activeTool: Option<int>)

  function RowOffset(id: int): real {
    if id == 0 then 210.0 else (6 - id) as real * 30.0
  }

  function PocketPosition(c: RackConfig, id: int): Point {
    Point(c.anchorX + c.offsetX, c.anchorY + c.offsetY + RowOffset(id), c.rackZ)
  }

  function Placed(c: RackConfig, pockets: seq<Pocket>): (placed: seq<Pocket>)
    ensures |placed| == |pockets|
    ensures forall i | 0 <= i < |pockets| :: placed[i] == pockets[i].(position := PocketPosition(c, pockets[i].id))
  {
    seq(|pockets|, i requires 0 <= i < |pockets| => pockets[i].(position := PocketPosition(c, pockets[i].id)))
  }

  ghost predicate DistinctIds(pockets: seq<Pocket>) {
    forall i, j | 0 <= i < j < |pockets| :: pockets[i].id != pockets[j].id
  }

  /** Two placed pockets are in reach of one spindle position exactly if they have the same number or are numbers 0 and
      -1; otherwise they are too far apart for the spindle to be at both. */
  lemma PlacesOverlapExactlyWhen(c: RackConfig, p: Pocket, q: Pocket)
    ensures var placed := Placed(c, [p, q]);
            (exists at: Point :: AtTransfer(at, placed[0]) && AtTransfer(at, placed[1]))
            <==> p.id == q.id || (p.id == 0 && q.id == -1) || (p.id == -1 && q.id == 0)
  {
    var placed := Placed(c, [p, q]);
    if p.id == q.id || (p.id == 0 && q.id == -1) || (p.id == -1 && q.id == 0) {
      assert PocketPosition(c, p.id) == PocketPosition(c, q.id);
      assert AtTransfer(PocketPosition(c, p.id), placed[0]) && AtTransfer(PocketPosition(c, p.id), placed[1]);
    } else {
      RowsApart(p.id, q.id);
    }
  }

  lemma RowsApart(a: int, b: int)
    requires a != b && !(a == 0 && b == -1) && !(a == -1 && b == 0)
    ensures Abs(RowOffset(a) - RowOffset(b)) >= 30.0
  {
    var rowA, rowB := if a == 0 then 7 else 6 - a, if b == 0 then 7 else 6 - b;
    assert RowOffset(a) == rowA as real * 30.0 && RowOffset(b) == rowB as real * 30.0;
    assert rowA >= rowB + 1 || rowB >= rowA + 1;
  }

  /** After configuring, pockets with distinct non-negative numbers are never two in reach, so gripping a tool and
      dropping it again restores the rack. */
  lemma OnePocketInReach(c: RackConfig, pockets: seq<Pocket>, spindleAt: Point)
    requires DistinctIds(pockets) && forall i | 0 <= i < |pockets| :: pockets[i].id >= 0
    ensures var placed := Placed(c, pockets);
            && (forall i, j | 0 <= i < j < |placed| ::
                  !(AtTransfer(spindleAt, placed[i]) && AtTransfer(spindleAt, placed[j])))
            && (forall spindle: Option<Tool> | spindle == None ::
                  Opened(Closed(Rack(placed, spindle), spindleAt), spindleAt) == Rack(placed, spindle))
  {
    var placed := Placed(c, pockets);
    forall i, j | 0 <= i < j < |placed|
      ensures !(AtTransfer(spindleAt, placed[i]) && AtTransfer(spindleAt, placed[j]))
    {
      RowsApart(pockets[i].id, pockets[j].id);
    }
    CloseThenOpenRestores(Rack(placed, None), spindleAt);
  }

  function ResolvedKind(number: int, requested: ToolKind): ToolKind {
    if requested != Unspecified then requested
    else if number >= 999990 then ThreeAxisProbe
    else if number == 0 then StockZProbe
    else CuttingTool
  }

  function ResolvedTool(number: int, lengthMm: real, kind: ToolKind, tipMm: real): Tool {
    var resolved := ResolvedKind(number, kind);
    Tool(number, lengthMm, resolved, ResolvedTip(resolved, tipMm))
  }

  function ResolvedTip(kind: ToolKind, requested: real): real {
    if requested > 0.0 then requested
    else if kind == ThreeAxisProbe then 2.0
    else if kind == StockZProbe then 1.6
    else 0.0
  }

  /* ----- Everything that happens to a tool changer ----- */

  datatype Changer = Changer(rack: Rack, clamp: Clamp, clampAction: real, available: bool)

  datatype Event =
    | Cleared
    | PocketsCleared
    | Stocked(pocket: int, tool: Tool, occupied: bool)
    | SpindleSet(tool: Tool, installed: bool)
    | Configured(config: RackConfig)
    | Moved(spindleAt: Point, position: real)
    | ClampOpened(spindleAt: Point)
    | ClampClosed(spindleAt: Point)

  const EMPTY_CHANGER: Changer := Changer(Rack([], None), Clamp(None, None, true), 1.0, false)

  /** The first pocket with a number, or the number of pockets. */
  function PocketNumbered(pockets: seq<Pocket>, id: int): (k: nat)
    ensures k <= |pockets|
    ensures forall i | 0 <= i < k :: pockets[i].id != id
    ensures k < |pockets| ==> pockets[k].id == id
  {
    if pockets == [] then 0 else if pockets[0].id == id then 0 else 1 + PocketNumbered(pockets[1..], id)
  }

  function Restocked(pockets: seq<Pocket>, id: int, tool: Tool, occupied: bool): seq<Pocket> {
    var k := PocketNumbered(pockets, id);
    if k == |pockets| then pockets + [Pocket(id, tool, occupied, Point(0.0, 0.0, 0.0))]
    else pockets[k := pockets[k].(tool := tool, occupied := occupied)]
  }

  /** The machine takes over its configuration: the spindle is reconciled first, then the pockets are placed. */
  function Reconfigured(c: Changer, config: RackConfig): Changer {
    var r := if config.activeTool.Some? then Reconciled(c.rack, config.activeTool.value) else c.rack;
    if config.carveraC1 && config.atcAvailable then
      c.(rack := Rack(Placed(config, r.pockets), r.spindle), clampAction := config.clampAction, available := true)
    else c.(rack := r, available := false)
  }

  /** The clamp reports where it is. */
  function ClampMoved(c: Changer, spindleAt: Point, position: real): Changer {
    var (clamp, toggled) := ClampStep(c.clamp, Threshold(c.clampAction), position);
    var rack := if !toggled then c.rack
                else if clamp.clamped then Closed(c.rack, spindleAt) else Opened(c.rack, spindleAt);
    c.(rack := rack, clamp := clamp)
  }

  function AfterEvent(c: Changer, e: Event): Changer {
    match e
    case Cleared => EMPTY_CHANGER
    case PocketsCleared => c.(rack := Rack([], None))
    case Stocked(pocket, tool, occupied) =>
      c.(rack := Rack(Restocked(c.rack.pockets, pocket, tool, occupied), c.rack.spindle))
    case SpindleSet(tool, installed) => c.(rack := Rack(c.rack.pockets, if installed then Some(tool) else None))
    case Configured(config) => Reconfigured(c, config)
    case Moved(spindleAt, position) => ClampMoved(c, spindleAt, position)
    case ClampOpened(spindleAt) => c.(rack := Opened(c.rack, spindleAt))
    case ClampClosed(spindleAt) => c.(rack := Closed(c.rack, spindleAt))
  }

  /* ----- The model as an object ----- */

  class AtcRackModel {
    var pockets: seq<Pocket>
    var spindle: Option<Tool>
    var lastClampPosition: Option<real>
    var clampReference: Option<real>
    var clampAction: real
    var physicalClamped: bool
    var available: bool

    function State(): Rack
      reads this`pockets, this`spindle
    {
      Rack(pockets, spindle)
    }

    function ClampState(): Clamp
      reads this`lastClampPosition, this`clampReference, this`physicalClamped
    {
      Clamp(lastClampPosition, clampReference, physicalClamped)
    }

    function Whole(): Changer
      reads this
    {
      Changer(State(), ClampState(), clampAction, available)
    }

    constructor ()
      ensures Whole() == EMPTY_CHANGER
    {
      pockets, spindle := [], None;
      lastClampPosition, clampReference, clampAction, physicalClamped := None, None, 1.0, true;
      available := false;
    }

    method Clear()
      modifies this
      ensures Whole() == AfterEvent(old(Whole()), Cleared)
    {
      pockets, spindle := [], None;
      lastClampPosition, clampReference, clampAction, physicalClamped := None, None, 1.0, true;
      available := false;
    }

    method ClearPocketTools()
      modifies this`pockets, this`spindle
      ensures Whole() == AfterEvent(old(Whole()), PocketsCleared)
    {
      pockets, spindle := [], None;
    }

    method SetSpindleTool(number: int, lengthMm: real, installed: bool, kind: ToolKind, tipMm: real)
      modifies this`spindle
      ensures Whole() == AfterEvent(old(Whole()), SpindleSet(ResolvedTool(number, lengthMm, kind, tipMm), installed))
    {
      if !installed {
        spindle := None;
        return;
      }
      var resolved := ResolvedKind(number, kind);
      spindle := Some(Tool(number, lengthMm, resolved, ResolvedTip(resolved, tipMm)));
    }

    /** Stocks a pocket; a pocket that does not exist yet is added. */
    method SetPocketTool(pocket: int, number: int, occupied: bool, lengthMm: real, kind: ToolKind, tipMm: real)
      modifies this`pockets
      ensures old(DistinctIds(pockets)) ==> DistinctIds(pockets)
      ensures var tool := ResolvedTool(number, lengthMm, kind, tipMm);
              Whole() == AfterEvent(old(Whole()), Stocked(pocket, tool, occupied))
    {
      var resolved := ResolvedKind(number, kind);
      var tool := Tool(number, lengthMm, resolved, ResolvedTip(resolved, tipMm));
      var k := 0;
      while k < |pockets| && pockets[k].id != pocket
        invariant 0 <= k <= |pockets| && pockets == old(pockets)
        invariant forall i | 0 <= i < k :: pockets[i].id != pocket
      {
        k := k + 1;
      }
      if k == |pockets| {
        pockets := pockets + [Pocket(pocket, tool, occupied, Point(0.0, 0.0, 0.0))];
      } else {
        pockets := pockets[k := pockets[k].(tool := tool, occupied := occupied)];
      }
    }

    method ClampOpen(spindleAt: Point)
      modifies this`pockets, this`spindle
      ensures Whole() == AfterEvent(old(Whole()), ClampOpened(spindleAt))
    {
      if spindle == None {
        return;
      }
      var i := 0;
      while i < |pockets|
        invariant 0 <= i <= |pockets| && State() == old(State())
        invariant forall j | 0 <= j < i :: !AtTransfer(spindleAt, pockets[j])
      {
        if AtTransfer(spindleAt, pockets[i]) {
          pockets := pockets[i := pockets[i].(tool := spindle.value, occupied := true)];
          spindle := None;
          return;
        }
        i := i + 1;
      }
    }

    method ClampClose(spindleAt: Point)
      modifies this`pockets, this`spindle
      ensures Whole() == AfterEvent(old(Whole()), ClampClosed(spindleAt))
    {
      if spindle.Some? {
        return;
      }
      var i := 0;
      while i < |pockets|
        invariant 0 <= i <= |pockets| && State() == old(State())
        invariant forall j | 0 <= j < i :: !(pockets[j].occupied && AtTransfer(spindleAt, pockets[j]))
      {
        if pockets[i].occupied && AtTransfer(spindleAt, pockets[i]) {
          spindle := Some(pockets[i].tool);
          pockets := pockets[i := pockets[i].(occupied := false)];
          return;
        }
        i := i + 1;
      }
    }

    method ReconcileSpindleTool(activeTool: int)
      modifies this`pockets, this`spindle
      ensures State() == Reconciled(old(State()), activeTool)
    {
      if spindle.Some? || activeTool < 0 {
        return;
      }
      var i := 0;
      while i < |pockets|
        invariant 0 <= i <= |pockets| && State() == old(State())
        invariant forall j | 0 <= j < i :: !(pockets[j].occupied && pockets[j].tool.number == activeTool)
      {
        if pockets[i].occupied && pockets[i].tool.number == activeTool {
          spindle := Some(pockets[i].tool);
          pockets := pockets[i := pockets[i].(occupied := false)];
          return;
        }
        i := i + 1;
      }
    }

    /** Takes over the machine's configuration: reconciles the spindle first, then places the pockets. */
    method Configure(config: RackConfig)
      modifies this`pockets, this`spindle, this`clampAction, this`available
      ensures Whole() == AfterEvent(old(Whole()), Configured(config))
    {
      if config.activeTool.Some? {
        ReconcileSpindleTool(config.activeTool.value);
      }
      if !config.carveraC1 || !config.atcAvailable {
        available := false;
        return;
      }
      clampAction := config.clampAction;
      ghost var start, tool := pockets, spindle;
      var i := 0;
      while i < |pockets|
        invariant 0 <= i <= |pockets| == |start| && spindle == tool && clampAction == config.clampAction
        invariant forall j | 0 <= j < |start| ::
                    pockets[j] == if j < i then start[j].(position := PocketPosition(config, start[j].id)) else start[j]
      {
        pockets := pockets[i := pockets[i].(position := PocketPosition(config, pockets[i].id))];
        i := i + 1;
      }
      available := true;
    }

    /** Reports where the clamp motor is: the clamp opens or closes when it has travelled far enough back. */
    method UpdateClampPosition(spindleAt: Point, position: real) returns (toggled: bool)
      modifies this`pockets, this`spindle, this`lastClampPosition, this`clampReference, this`physicalClamped
      ensures (ClampState(), toggled) == ClampStep(old(ClampState()), Threshold(clampAction), position)
      ensures Whole() == AfterEvent(old(Whole()), Moved(spindleAt, position))
    {
      var previous := lastClampPosition;
      lastClampPosition := Some(position);
      if previous == None {
        clampReference := Some(position);
        return false;
      }
      if clampReference == None {
        clampReference := Some(position);
      }
      var threshold := Threshold(clampAction);
      var delta := position - previous.value;
      if physicalClamped && delta > 0.0 {
        clampReference := Some(Max(clampReference.value, position));
        return false;
      }
      if !physicalClamped && delta < 0.0 {
        clampReference := Some(Min(clampReference.value, position));
        return false;
      }
      if physicalClamped && delta < 0.0 && clampReference.value - position >= threshold {
        physicalClamped := false;
        clampReference := Some(position);
        ClampOpen(spindleAt);
        return true;
      } else if !physicalClamped && delta > 0.0 && position - clampReference.value >= threshold {
        physicalClamped := true;
        clampReference := Some(position);
        ClampClose(spindleAt);
        return true;
      }
      return false;
    }
  }

  /* ----- Whole runs ----- */

  function AfterEvents(c: Changer, events: seq<Event>): Changer {
    if events == [] then c else AfterEvent(AfterEvents(c, events[..|events| - 1]), events[|events| - 1])
  }

  /** The clamp opens with a tool in the spindle over an occupied pocket. */
  predicate Overwrites(c: Changer, e: Event) {
    match e
    case Moved(spindleAt, position) =>
      var (clamp, toggled) := ClampStep(c.clamp, Threshold(c.clampAction), position);
      toggled && !clamp.clamped && DropsOnTool(c.rack, spindleAt)
    case ClampOpened(spindleAt) => DropsOnTool(c.rack, spindleAt)
    case _ => false
  }

  /** The tool in the pocket when that happens. */
  function Lost(c: Changer, e: Event): multiset<Tool> {
    if Overwrites(c, e) then multiset{c.rack.pockets[PocketAt(c.rack.pockets, e.spindleAt, false)].tool}
    else multiset{}
  }

  /** What the user puts into the machine. */
  function PutIn(e: Event): multiset<Tool> {
    match e
    case Stocked(_, tool, occupied) => if occupied then multiset{tool} else multiset{}
    case SpindleSet(tool, installed) => if installed then multiset{tool} else multiset{}
    case _ => multiset{}
  }

  /** What the user takes out of it. */
  function TakenOut(c: Changer, e: Event): multiset<Tool> {
    match e
    case Cleared => Tools(c.rack)
    case PocketsCleared => Tools(c.rack)
    case Stocked(pocket, _, _) =>
      var k := PocketNumbered(c.rack.pockets, pocket);
      if k < |c.rack.pockets| then InPocket(c.rack.pockets[k]) else multiset{}
    case SpindleSet(_, _) => InSpindle(c.rack.spindle)
    case _ => multiset{}
  }

  function AllLost(c: Changer, events: seq<Event>): multiset<Tool> {
    if events == [] then multiset{}
    else
      var front := events[..|events| - 1];
      AllLost(c, front) + Lost(AfterEvents(c, front), events[|events| - 1])
  }

  function AllPutIn(events: seq<Event>): multiset<Tool> {
    if events == [] then multiset{} else AllPutIn(events[..|events| - 1]) + PutIn(events[|events| - 1])
  }

  function AllTakenOut(c: Changer, events: seq<Event>): multiset<Tool> {
    if events == [] then multiset{}
    else
      var front := events[..|events| - 1];
      AllTakenOut(c, front) + TakenOut(AfterEvents(c, front), events[|events| - 1])
  }

  lemma {:induction false} PlacingKeepsTools(config: RackConfig, pockets: seq<Pocket>)
    ensures InPockets(Placed(config, pockets)) == InPockets(pockets)
  {
    hide PocketPosition;
    if pockets != [] {
      PlacingKeepsTools(config, pockets[..|pockets| - 1]);
      assert Placed(config, pockets)[..|pockets| - 1] == Placed(config, pockets[..|pockets| - 1]);
    }
  }

  lemma ReconfiguringConserves(c: Changer, config: RackConfig)
    ensures Tools(Reconfigured(c, config).rack) == Tools(c.rack)
  {
    hide Reconciled, Placed, InPockets;
    var r := if config.activeTool.Some? then Reconciled(c.rack, config.activeTool.value) else c.rack;
    if config.activeTool.Some? {
      ReconcilingConserves(c.rack, config.activeTool.value);
    }
    PlacingKeepsTools(config, r.pockets);
  }

  lemma RestockingExchanges(r: Rack, id: int, tool: Tool, occupied: bool)
    ensures var k := PocketNumbered(r.pockets, id);
            Tools(Rack(Restocked(r.pockets, id, tool, occupied), r.spindle))
            + (if k < |r.pockets| then InPocket(r.pockets[k]) else multiset{})
            == Tools(r) + (if occupied then multiset{tool} else multiset{})
  {
    hide PocketNumbered;
    var k := PocketNumbered(r.pockets, id);
    if k < |r.pockets| {
      var stocked := r.pockets[k].(tool := tool, occupied := occupied);
      PocketReplaced(r.pockets, k, stocked);
      Exchanged(InPockets(r.pockets[k := stocked]), InPocket(r.pockets[k]), InPockets(r.pockets), InPocket(stocked),
                InSpindle(r.spindle));
    } else {
      var all := Restocked(r.pockets, id, tool, occupied);
      assert all[..|all| - 1] == r.pockets;
    }
  }

  lemma OpeningLosesExactly(r: Rack, spindleAt: Point)
    ensures Tools(Opened(r, spindleAt))
            + (if DropsOnTool(r, spindleAt) then multiset{r.pockets[PocketAt(r.pockets, spindleAt, false)].tool}
               else multiset{})
            == Tools(r)
  {
    hide Tools, Opened;
    OpenedTools(r, spindleAt);
  }

  /** What is in the machine before an event and what is put in is what is there after it, taken out or lost. */
  predicate Balances(c: Changer, e: Event) {
    Tools(AfterEvent(c, e).rack) + TakenOut(c, e) + Lost(c, e) == Tools(c.rack) + PutIn(e)
  }

  lemma ClearingBalances(c: Changer, e: Event)
    requires e.Cleared? || e.PocketsCleared?
    ensures Balances(c, e)
  {
    assert Tools(Rack([], None)) == multiset{};
    hide Tools;
    assert multiset{} + Tools(c.rack) + multiset{} == Tools(c.rack) + multiset{};
  }

  lemma SpindleSetBalances(c: Changer, e: Event)
    requires e.SpindleSet?
    ensures Balances(c, e)
  {
    hide InPockets;
  }

  lemma StockingBalances(c: Changer, e: Event)
    requires e.Stocked?
    ensures Balances(c, e)
  {
    hide Tools, Restocked, PocketNumbered, InPocket;
    RestockingExchanges(c.rack, e.pocket, e.tool, e.occupied);
  }

  lemma ConfiguringBalances(c: Changer, e: Event)
    requires e.Configured?
    ensures Balances(c, e)
  {
    hide Tools, Reconfigured;
    ReconfiguringConserves(c, e.config);
  }

  lemma OpeningBalances(c: Changer, e: Event)
    requires e.ClampOpened?
    ensures Balances(c, e)
  {
    hide Tools, Opened, DropsOnTool, PocketAt;
    OpeningLosesExactly(c.rack, e.spindleAt);
    NoneTaken(Tools(AfterEvent(c, e).rack), Lost(c, e), Tools(c.rack));
  }

  lemma ClosingBalances(c: Changer, e: Event)
    requires e.ClampClosed?
    ensures Balances(c, e)
  {
    hide Tools, Closed;
    ClosingConserves(c.rack, e.spindleAt);
    NoneTaken(Tools(AfterEvent(c, e).rack), Lost(c, e), Tools(c.rack));
  }

  lemma MotionBalances(c: Changer, e: Event)
    requires e.Moved?
    ensures Balances(c, e)
  {
    hide Tools, Opened, Closed, ClampStep, DropsOnTool, PocketAt;
    OpeningLosesExactly(c.rack, e.spindleAt);
    ClosingConserves(c.rack, e.spindleAt);
    NoneTaken(Tools(AfterEvent(c, e).rack), Lost(c, e), Tools(c.rack));
  }

  lemma NoneTaken(after: multiset<Tool>, lost: multiset<Tool>, before: multiset<Tool>)
    ensures after + multiset{} + lost == after + lost && before + multiset{} == before
    ensures after + multiset{} == after
  {
  }

  lemma EventBalances(c: Changer, e: Event)
    ensures Balances(c, e)
  {
    hide Balances;
    match e
    case Cleared => ClearingBalances(c, e);
    case PocketsCleared => ClearingBalances(c, e);
    case Stocked(_, _, _) => StockingBalances(c, e);
    case SpindleSet(_, _) => SpindleSetBalances(c, e);
    case Configured(_) => ConfiguringBalances(c, e);
    case Moved(_, _) => MotionBalances(c, e);
    case ClampOpened(_) => OpeningBalances(c, e);
    case ClampClosed(_) => ClosingBalances(c, e);
  }

  lemma Balanced(t0: multiset<Tool>, t1: multiset<Tool>, t2: multiset<Tool>, out1: multiset<Tool>,
                 out2: multiset<Tool>, lost1: multiset<Tool>, lost2: multiset<Tool>, in1: multiset<Tool>,
                 in2: multiset<Tool>)
    requires t1 + out1 + lost1 == t0 + in1 && t2 + out2 + lost2 == t1 + in2
    ensures t2 + (out1 + out2) + (lost1 + lost2) == t0 + (in1 + in2)
  {
    assert t2 + (out1 + out2) + (lost1 + lost2) == (t2 + out2 + lost2) + out1 + lost1;
    assert (t1 + in2) + out1 + lost1 == (t1 + out1 + lost1) + in2;
    assert (t0 + in1) + in2 == t0 + (in1 + in2);
  }

  /** Over any run of everything that can happen to the machine, every tool is accounted for: what it holds, what was
      taken out and what openings overwrote is what it held at first and what was put in. */
  lemma {:induction false} EveryToolIsAccountedFor(c: Changer, events: seq<Event>)
    ensures Tools(AfterEvents(c, events).rack) + AllTakenOut(c, events) + AllLost(c, events)
            == Tools(c.rack) + AllPutIn(events)
  {
    hide Tools, AfterEvent, TakenOut, Lost, PutIn;
    if events != [] {
      var front, last := events[..|events| - 1], events[|events| - 1];
      var c1 := AfterEvents(c, front);
      EveryToolIsAccountedFor(c, front);
      EventBalances(c1, last);
      Balanced(Tools(c.rack), Tools(c1.rack), Tools(AfterEvents(c, events).rack), AllTakenOut(c, front),
               TakenOut(c1, last), AllLost(c, front), Lost(c1, last), AllPutIn(front), PutIn(last));
    }
  }

  /** Some opening during the run is over an occupied pocket. */
  ghost predicate EverOverwrites(c: Changer, events: seq<Event>) {
    exists k | 0 <= k < |events| :: Overwrites(AfterEvents(c, events[..k]), events[k])
  }

  lemma LastMayOverwrite(c: Changer, events: seq<Event>)
    requires events != []
    ensures var front := events[..|events| - 1];
            EverOverwrites(c, events)
            <==> EverOverwrites(c, front) || Overwrites(AfterEvents(c, front), events[|events| - 1])
  {
    hide AfterEvents, Overwrites;
    var n := |events| - 1;
    var front := events[..n];
    forall k | 0 <= k < n ensures front[..k] == events[..k] && front[k] == events[k] {
    }
    if EverOverwrites(c, front) {
      var k :| 0 <= k < n && Overwrites(AfterEvents(c, front[..k]), front[k]);
      assert Overwrites(AfterEvents(c, events[..k]), events[k]);
    }
    if EverOverwrites(c, events) && !Overwrites(AfterEvents(c, front), events[n]) {
      var k :| 0 <= k <= n && Overwrites(AfterEvents(c, events[..k]), events[k]);
      assert Overwrites(AfterEvents(c, front[..k]), front[k]);
    }
  }

  lemma {:induction false} SomethingIsLostExactlyWhen(c: Changer, events: seq<Event>)
    ensures AllLost(c, events) == multiset{} <==> !EverOverwrites(c, events)
  {
    hide AfterEvents, Overwrites, EverOverwrites;
    if events != [] {
      var front := events[..|events| - 1];
      SomethingIsLostExactlyWhen(c, front);
      LastMayOverwrite(c, events);
      BothEmpty(AllLost(c, front), Lost(AfterEvents(c, front), events[|events| - 1]));
    } else {
      NothingOverwritten(c);
    }
  }

  lemma NothingOverwritten(c: Changer)
    ensures !EverOverwrites(c, [])
  {
  }

  lemma BothEmpty(a: multiset<Tool>, b: multiset<Tool>)
    ensures a + b == multiset{} <==> a == multiset{} && b == multiset{}
  {
    assert |a + b| == |a| + |b|;
  }

  lemma NothingMissing(held: multiset<Tool>, lost: multiset<Tool>)
    ensures held + lost == held <==> lost == multiset{}
  {
    if lost != multiset{} {
      var t :| t in lost;
      assert (held + lost)[t] > held[t];
    }
  }

  /** No tool is duplicated or invented, and none goes missing exactly if the clamp never opens over an occupied pocket
      with a tool in the spindle. */
  lemma RunConservesExactlyWhen(c: Changer, events: seq<Event>)
    ensures var left := Tools(AfterEvents(c, events).rack) + AllTakenOut(c, events);
            && left <= Tools(c.rack) + AllPutIn(events)
            && (left == Tools(c.rack) + AllPutIn(events) <==> !EverOverwrites(c, events))
  {
    hide Tools, AfterEvents, AllTakenOut, AllLost, AllPutIn, EverOverwrites;
    EveryToolIsAccountedFor(c, events);
    SomethingIsLostExactlyWhen(c, events);
    NothingMissing(Tools(AfterEvents(c, events).rack) + AllTakenOut(c, events), AllLost(c, events));
  }

  /** What the machine does by itself: its clamp moves, and it is configured anew. */
  predicate ByItself(e: Event) {
    e.Configured? || e.Moved? || e.ClampOpened? || e.ClampClosed?
  }

  lemma {:induction false} NothingPutIn(c: Changer, events: seq<Event>)
    requires forall e | e in events :: ByItself(e)
    ensures AllPutIn(events) == multiset{} && AllTakenOut(c, events) == multiset{}
  {
    hide Tools, AfterEvents;
    if events != [] {
      var front, last := events[..|events| - 1], events[|events| - 1];
      assert last in events && forall e | e in front :: e in events;
      NothingPutIn(c, front);
    }
  }

  /** Moving the clamp and configuring the machine in any order, moved pockets and new clamp actions included, keeps
      all tools exactly if no opening overwrites one. */
  lemma MotionsConserveExactlyWhen(c: Changer, events: seq<Event>)
    requires forall e | e in events :: ByItself(e)
    ensures Tools(AfterEvents(c, events).rack) <= Tools(c.rack)
    ensures Tools(AfterEvents(c, events).rack) == Tools(c.rack) <==> !EverOverwrites(c, events)
  {
    hide Tools, AfterEvents, AllTakenOut, AllPutIn, EverOverwrites, ByItself;
    NothingPutIn(c, events);
    RunConservesExactlyWhen(c, events);
    NoneTaken(Tools(AfterEvents(c, events).rack), multiset{}, Tools(c.rack));
  }

  /** One stocked pocket, which starts at the origin, and a loaded spindle there: as the clamp moves by a millimetre it
      opens, and the tool that was in the pocket is gone. */
  lemma OverwrittenToolIsGone(inPocket: Tool, inSpindle: Tool)
    ensures var at := Point(0.0, 0.0, 0.0);
            var events := [Stocked(1, inPocket, true), SpindleSet(inSpindle, true), Moved(at, 0.0), Moved(at, -1.0)];
            && AfterEvents(EMPTY_CHANGER, events).rack == Rack([Pocket(1, inSpindle, true, at)], None)
            && AllPutIn(events) == multiset{inPocket, inSpindle} && AllTakenOut(EMPTY_CHANGER, events) == multiset{}
            && AllLost(EMPTY_CHANGER, events) == multiset{inPocket}
  {
    hide AfterEvents, AllPutIn, AllTakenOut, AllLost, AfterEvent, PutIn, TakenOut, Lost;
    var at := Point(0.0, 0.0, 0.0);
    var stocked := Changer(Rack([Pocket(1, inPocket, true, at)], None), Clamp(None, None, true), 1.0, false);
    var loaded := stocked.(rack := Rack(stocked.rack.pockets, Some(inSpindle)));
    RunOfFour(EMPTY_CHANGER, Stocked(1, inPocket, true), SpindleSet(inSpindle, true), Moved(at, 0.0), Moved(at, -1.0));
    StockedAndLoaded(inPocket, inSpindle, stocked, loaded);
    OpensAfterAMillimetre(loaded, at);
  }

  lemma StockedAndLoaded(inPocket: Tool, inSpindle: Tool, stocked: Changer, loaded: Changer)
    requires stocked == Changer(Rack([Pocket(1, inPocket, true, Point(0.0, 0.0, 0.0))], None), Clamp(None, None, true),
                                1.0, false)
    requires loaded == stocked.(rack := Rack(stocked.rack.pockets, Some(inSpindle)))
    ensures AfterEvent(EMPTY_CHANGER, Stocked(1, inPocket, true)) == stocked
    ensures AfterEvent(stocked, SpindleSet(inSpindle, true)) == loaded
    ensures PutIn(Stocked(1, inPocket, true)) == multiset{inPocket}
    ensures PutIn(SpindleSet(inSpindle, true)) == multiset{inSpindle}
    ensures TakenOut(EMPTY_CHANGER, Stocked(1, inPocket, true)) == multiset{}
    ensures TakenOut(stocked, SpindleSet(inSpindle, true)) == multiset{}
    ensures Lost(EMPTY_CHANGER, Stocked(1, inPocket, true)) == multiset{}
    ensures Lost(stocked, SpindleSet(inSpindle, true)) == multiset{}
  {
  }

  lemma RunOfFour(c: Changer, e1: Event, e2: Event, e3: Event, e4: Event)
    ensures var c1 := AfterEvent(c, e1);
            var c2 := AfterEvent(c1, e2);
            var c3 := AfterEvent(c2, e3);
            var events := [e1, e2, e3, e4];
            && AfterEvents(c, events) == AfterEvent(c3, e4)
            && AllPutIn(events) == PutIn(e1) + PutIn(e2) + PutIn(e3) + PutIn(e4)
            && AllTakenOut(c, events) == TakenOut(c, e1) + TakenOut(c1, e2) + TakenOut(c2, e3) + TakenOut(c3, e4)
            && AllLost(c, events) == Lost(c, e1) + Lost(c1, e2) + Lost(c2, e3) + Lost(c3, e4)
  {
    hide AfterEvent, PutIn, TakenOut, Lost, AfterEvents, AllPutIn, AllTakenOut, AllLost;
    NoEvents(c);
    OneMoreEvent(c, [], e1);
    OneMoreEvent(c, [e1], e2);
    OneMoreEvent(c, [e1, e2], e3);
    OneMoreEvent(c, [e1, e2, e3], e4);
    assert [] + [e1] == [e1] && [e1] + [e2] == [e1, e2] && [e1, e2] + [e3] == [e1, e2, e3];
    assert [e1, e2, e3] + [e4] == [e1, e2, e3, e4];
  }

  lemma NoEvents(c: Changer)
    ensures AfterEvents(c, []) == c
    ensures AllPutIn([]) == multiset{} && AllTakenOut(c, []) == multiset{} && AllLost(c, []) == multiset{}
  {
  }

  lemma OneMoreEvent(c: Changer, front: seq<Event>, e: Event)
    ensures var c1 := AfterEvents(c, front);
            && AfterEvents(c, front + [e]) == AfterEvent(c1, e)
            && AllPutIn(front + [e]) == AllPutIn(front) + PutIn(e)
            && AllTakenOut(c, front + [e]) == AllTakenOut(c, front) + TakenOut(c1, e)
            && AllLost(c, front + [e]) == AllLost(c, front) + Lost(c1, e)
  {
    assert (front + [e])[..|front|] == front;
  }

  lemma OpensAfterAMillimetre(loaded: Changer, at: Point)
    requires |loaded.rack.pockets| == 1 && loaded.rack.pockets[0].occupied && loaded.rack.pockets[0].position == at
    requires loaded.rack.spindle.Some? && loaded.clamp == Clamp(None, None, true) && loaded.clampAction == 1.0
    ensures var pocket, tool := loaded.rack.pockets[0], loaded.rack.spindle.value;
            var moved := AfterEvent(loaded, Moved(at, 0.0));
            && AfterEvent(moved, Moved(at, -1.0)).rack == Rack([pocket.(tool := tool)], None)
            && Lost(loaded, Moved(at, 0.0)) == multiset{} && Lost(moved, Moved(at, -1.0)) == multiset{pocket.tool}
            && PutIn(Moved(at, 0.0)) == PutIn(Moved(at, -1.0)) == multiset{}
            && TakenOut(loaded, Moved(at, 0.0)) == TakenOut(moved, Moved(at, -1.0)) == multiset{}
  {
    hide Opened, PocketAt, AtTransfer;
    DropsOnOnly(loaded.rack.pockets[0], loaded.rack.spindle.value);
    assert loaded.rack.pockets == [loaded.rack.pockets[0]];
    assert AfterEvent(loaded, Moved(at, 0.0)) == loaded.(clamp := Clamp(Some(0.0), Some(0.0), true));
  }

  lemma DropsOnOnly(pocket: Pocket, tool: Tool)
    requires pocket.occupied
    ensures PocketAt([pocket], pocket.position, false) == 0
    ensures Opened(Rack([pocket], Some(tool)), pocket.position) == Rack([pocket.(tool := tool)], None)
  {
  }

  /* ----- In millimetres ----- */

  /** The spindle stands close enough to a pocket to exchange tools: 3.8 mm in x and y, 3 mm in z. */
  ghost predicate InReach(at: Point, p: Pocket) {
    && -3.8 <= at.x - p.position.x <= 3.8
    && -3.8 <= at.y - p.position.y <= 3.8
    && -3.0 <= at.z - p.position.z <= 3.0
  }

  lemma AtTransferExactlyWhen(at: Point, p: Pocket)
    ensures AtTransfer(at, p) <==> InReach(at, p)
  {
  }

  /** Four fifths of the clamp action, and at least a twentieth of a millimetre. */
  ghost predicate FarEnough(distance: real, clampAction: real) {
    distance >= 0.05 && distance >= 0.8 * clampAction && distance >= -0.8 * clampAction
  }

  /** The first pocket in reach, or the first one in reach that holds a tool. */
  ghost predicate FirstInReach(pockets: seq<Pocket>, at: Point, full: bool, k: nat) {
    && k < |pockets| && InReach(at, pockets[k]) && (full ==> pockets[k].occupied)
    && forall j | 0 <= j < k :: !(InReach(at, pockets[j]) && (full ==> pockets[j].occupied))
  }

  lemma PocketAtIsFirst(pockets: seq<Pocket>, at: Point, full: bool)
    ensures var k := PocketAt(pockets, at, full);
            if k < |pockets| then FirstInReach(pockets, at, full, k)
            else forall j | 0 <= j < |pockets| :: !(InReach(at, pockets[j]) && (full ==> pockets[j].occupied))
  {
    hide AtTransfer, InReach;
    forall p: Pocket ensures AtTransfer(at, p) <==> InReach(at, p) { AtTransferExactlyWhen(at, p); }
  }

  /** The rack after a tool in the spindle was let go. */
  ghost predicate Released(r: Rack, at: Point, r': Rack) {
    if r.spindle == None then r' == r
    else
      && (forall k: nat | FirstInReach(r.pockets, at, false, k) ::
            r' == Rack(r.pockets[k := Pocket(r.pockets[k].id, r.spindle.value, true, r.pockets[k].position)], None))
      && ((forall j | 0 <= j < |r.pockets| :: !InReach(at, r.pockets[j])) ==> r' == r)
  }

  /** The rack after an empty spindle was closed. */
  ghost predicate Gripped(r: Rack, at: Point, r': Rack) {
    if r.spindle.Some? then r' == r
    else
      && (forall k: nat | FirstInReach(r.pockets, at, true, k) ::
            r' == Rack(r.pockets[k := Pocket(r.pockets[k].id, r.pockets[k].tool, false, r.pockets[k].position)],
                       Some(r.pockets[k].tool)))
      && ((forall j | 0 <= j < |r.pockets| :: !(InReach(at, r.pockets[j]) && r.pockets[j].occupied)) ==> r' == r)
  }

  lemma OneFirst(pockets: seq<Pocket>, at: Point, full: bool, k: nat, m: nat)
    requires FirstInReach(pockets, at, full, k) && FirstInReach(pockets, at, full, m)
    ensures k == m
  {
  }

  lemma OpenedIsReleased(r: Rack, at: Point)
    ensures Released(r, at, Opened(r, at))
  {
    hide PocketAt, InReach;
    PocketAtIsFirst(r.pockets, at, false);
    var k := PocketAt(r.pockets, at, false);
    forall m: nat | FirstInReach(r.pockets, at, false, m) ensures m == k {
      if k < |r.pockets| { OneFirst(r.pockets, at, false, k, m); }
    }
  }

  lemma ClosedIsGripped(r: Rack, at: Point)
    ensures Gripped(r, at, Closed(r, at))
  {
    hide PocketAt, InReach;
    PocketAtIsFirst(r.pockets, at, true);
    var k := PocketAt(r.pockets, at, true);
    forall m: nat | FirstInReach(r.pockets, at, true, m) ensures m == k {
      if k < |r.pockets| { OneFirst(r.pockets, at, true, k, m); }
    }
  }

  /** When a moved clamp exchanges a tool: it lets go when it has come down far enough from its reference, and grips
      when it has gone up far enough; otherwise the rack stays as it is. */
  lemma MovedClampExchanges(c: Changer, at: Point, position: real)
    ensures var c' := AfterEvent(c, Moved(at, position));
            && c'.clamp.last == Some(position) && c' == c.(rack := c'.rack, clamp := c'.clamp)
            && (c.clamp.last == None ==>
                  c'.rack == c.rack && c'.clamp == Clamp(Some(position), Some(position), c.clamp.clamped))
            && (c.clamp.last.Some? && c.clamp.reference.Some? ==>
                  var last, from := c.clamp.last.value, c.clamp.reference.value;
                  if c.clamp.clamped && position < last && FarEnough(from - position, c.clampAction) then
                    c'.clamp == Clamp(Some(position), Some(position), false) && Released(c.rack, at, c'.rack)
                  else if !c.clamp.clamped && position > last && FarEnough(position - from, c.clampAction) then
                    c'.clamp == Clamp(Some(position), Some(position), true) && Gripped(c.rack, at, c'.rack)
                  else
                    && c'.rack == c.rack && c'.clamp.clamped == c.clamp.clamped
                    && c'.clamp.reference == Some(if (c.clamp.clamped && position > last && position > from)
                                                     || (!c.clamp.clamped && position < last && position < from)
                                                  then position else from))
  {
    hide Opened, Closed, Released, Gripped;
    OpenedIsReleased(c.rack, at);
    ClosedIsGripped(c.rack, at);
  }

  /** Opening and closing the clamp directly exchanges tools in the same way. */
  lemma DirectExchange(c: Changer, at: Point)
    ensures var open, shut := AfterEvent(c, ClampOpened(at)), AfterEvent(c, ClampClosed(at));
            && open == c.(rack := open.rack) && Released(c.rack, at, open.rack)
            && shut == c.(rack := shut.rack) && Gripped(c.rack, at, shut.rack)
  {
    hide Opened, Closed, Released, Gripped;
    OpenedIsReleased(c.rack, at);
    ClosedIsGripped(c.rack, at);
  }

  /** An available rack of the right machine stands in a row: 30 mm between neighbouring numbers, pocket 0 at 210 mm. */
  lemma ConfiguredRow(c: Changer, config: RackConfig)
    ensures var c' := AfterEvent(c, Configured(config));
            && |c'.rack.pockets| == |c.rack.pockets| && c'.clamp == c.clamp
            && c'.available == (config.carveraC1 && config.atcAvailable)
            && c'.clampAction == (if c'.available then config.clampAction else c.clampAction)
            && forall i | 0 <= i < |c.rack.pockets| ::
                 var before, after := c.rack.pockets[i], c'.rack.pockets[i];
                 && after.id == before.id && after.tool == before.tool
                 && after.position ==
                    if !c'.available then before.position
                    else Point(config.anchorX + config.offsetX,
                               config.anchorY + config.offsetY +
                               (if before.id == 0 then 210.0 else (6 - before.id) as real * 30.0),
                               config.rackZ)
  {
  }

  /** Told which tool is active, an empty spindle takes it from the first pocket that holds it. */
  lemma ActiveToolIsTaken(c: Changer, config: RackConfig, k: nat)
    requires c.rack.spindle == None && config.activeTool.Some? && config.activeTool.value >= 0
    requires k < |c.rack.pockets| && c.rack.pockets[k].occupied
    requires c.rack.pockets[k].tool.number == config.activeTool.value
    requires forall j | 0 <= j < k ::
               !(c.rack.pockets[j].occupied && c.rack.pockets[j].tool.number == config.activeTool.value)
    ensures var c' := AfterEvent(c, Configured(config));
            && c'.rack.spindle == Some(c.rack.pockets[k].tool)
            && forall i | 0 <= i < |c.rack.pockets| ::
                 c'.rack.pockets[i].occupied == (i != k && c.rack.pockets[i].occupied)
  {
    assert PocketWith(c.rack.pockets, config.activeTool.value) == k;
  }

  /** Otherwise the spindle and what the pockets hold stay as they are. */
  lemma NoToolIsTaken(c: Changer, config: RackConfig)
    requires || config.activeTool == None || config.activeTool.value < 0 || c.rack.spindle.Some?
             || forall p | p in c.rack.pockets :: !(p.occupied && p.tool.number == config.activeTool.value)
    ensures var c' := AfterEvent(c, Configured(config));
            && c'.rack.spindle == c.rack.spindle
            && forall i | 0 <= i < |c.rack.pockets| :: c'.rack.pockets[i].occupied == c.rack.pockets[i].occupied
  {
  }

  /** A requested kind and a positive tip are taken as they are; otherwise the tool number decides. */
  lemma ResolvedByNumber(number: int, lengthMm: real, kind: ToolKind, tipMm: real)
    ensures var tool := ResolvedTool(number, lengthMm, kind, tipMm);
            && tool.number == number && tool.lengthMm == lengthMm
            && (kind != Unspecified ==> tool.kind == kind)
            && (kind == Unspecified && number >= 999990 ==> tool.kind == ThreeAxisProbe)
            && (kind == Unspecified && number == 0 ==> tool.kind == StockZProbe)
            && (kind == Unspecified && number != 0 && number < 999990 ==> tool.kind == CuttingTool)
            && (tipMm > 0.0 ==> tool.tipMm == tipMm)
            && (tipMm <= 0.0 && tool.kind == ThreeAxisProbe ==> tool.tipMm == 2.0)
            && (tipMm <= 0.0 && tool.kind == StockZProbe ==> tool.tipMm == 1.6)
            && (tipMm <= 0.0 && tool.kind == CuttingTool ==> tool.tipMm == 0.0)
  {
  }

  /** Stocking fills the first pocket with the number, which stays where it is, or adds one at the origin; the spindle
      and the other pockets stay. */
  lemma StockedPocket(c: Changer, id: int, tool: Tool, occupied: bool)
    ensures var before, c' := c.rack.pockets, AfterEvent(c, Stocked(id, tool, occupied));
            && c' == c.(rack := Rack(c'.rack.pockets, c.rack.spindle))
            && ((forall p | p in before :: p.id != id) ==>
                  c'.rack.pockets == before + [Pocket(id, tool, occupied, Point(0.0, 0.0, 0.0))])
            && forall k | 0 <= k < |before| && before[k].id == id && (forall j | 0 <= j < k :: before[j].id != id) ::
                 c'.rack.pockets == before[k := Pocket(id, tool, occupied, before[k].position)]
  {
    var k := PocketNumbered(c.rack.pockets, id);
    if k < |c.rack.pockets| { assert c.rack.pockets[k] in c.rack.pockets; }
  }
}
