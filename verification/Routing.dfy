// internal/cli/next_route.go: the claim-aware precedence `lit next` serves by.
module Routing {
  import opened Model
  import opened Readiness
  import opened Gating
  import Events
  import Standing
  import Evidence
  import HoldGate

  // ---- Epics above a row, and the work toward each dependency ----

  datatype Relations = Relations(issueID: ID, parent: Option<Parent>)

  function ParentsIn(ancestry: map<ID, Relations>): set<ID> {
    set id | id in ancestry && ancestry[id].parent.Some? :: ancestry[id].parent.value.id
  }

  function ParentId(parent: Option<Parent>): set<ID> { if parent.Some? then {parent.value.id} else {} }

  function ParentOf(ancestry: map<ID, Relations>, id: ID): Option<Parent> {
    if id in ancestry then ancestry[id].parent else None
  }

  /** The epics from parent up, nearest first; a parent that is no epic ends the
      climb, and so does a parent cycle. */
  function Climb(parent: Option<Parent>, seen: set<ID>, ancestry: map<ID, Relations>): seq<ID>
    decreases ParentsIn(ancestry) + ParentId(parent) - seen
  {
    if parent.None? || !parent.value.IsContainer() || parent.value.id in seen then []
    else
      var id := parent.value.id;
      var next := ParentOf(ancestry, id);
      assert ParentId(next) <= ParentsIn(ancestry);
      assert id in ParentsIn(ancestry) + ParentId(parent) - seen;
      [id] + Climb(next, seen + {id}, ancestry)
  }

  function EpicsAbove(rel: Relations, ancestry: map<ID, Relations>): seq<ID> {
    Climb(rel.parent, {rel.issueID}, ancestry)
  }

  // ---- Capacity and reach ----

  datatype Capacity = RouteAround | ServeWork | ResumeWork

  function CapacityFor(row: Row, st: Standing.Standing, self: Events.Holder): Capacity {
    var relation := HoldGate.RelationOf(st, self);
    var started := row.issue.state.InProgress?;
    if relation.LaneHeldForeign? || row.Readiness().AwaitsOutside() then RouteAround
    else if !started && row.Readiness().IsReady() then ServeWork
    else if !started then RouteAround
    else if relation.LaneOurs? then ResumeWork
    else ServeWork
  }

  function ReachOf(row: Row, st: Standing.Standing, self: Events.Holder): ReachKind {
    if CapacityFor(row, st, self) != RouteAround then Takeable
    else if row.Readiness().AwaitsOutside() then AwaitingOutside
    else if HoldGate.RelationOf(st, self).LaneHeldForeign? then HeldFresh
    else if row.Readiness().HeldByItself() then ReachKind.HeldByItself
    else NotReady
  }

  // ---- This checkout's own work, and the focus scope ----

  datatype OwnWork = OwnWork(lanes: set<LaneID>, epics: set<ID>)
  {
    predicate Holds(lane: LaneID) { lane in lanes }

    predicate Covers(lane: LaneID) { lane in lanes || lane.epic in epics }
  }

  function OwnScope(standings: Evidence.Standings, self: Events.Holder): OwnWork {
    var lanes := set lane | lane in standings && HoldGate.RelationOf(standings[lane], self).LaneOurs?;
    OwnWork(lanes, set lane | lane in lanes && lane.epic != "" :: lane.epic)
  }

  /** An identified checkout holds the lane, and it is the one that asks. */
  predicate HeldBySelf(standings: Evidence.Standings, self: Events.Holder, lane: LaneID) {
    lane in standings && standings[lane].Held? && standings[lane].tenure.holder == self &&
    self.checkout != Events.Pair("", "")
  }

  /** It is one of ours, or of an epic one of ours is of; a lane of one is of no epic. */
  ghost predicate InOwnScope(standings: Evidence.Standings, self: Events.Holder, lane: LaneID) {
    HeldBySelf(standings, self, lane) ||
    (lane.epic != "" && exists held :: HeldBySelf(standings, self, held) && held.epic == lane.epic)
  }

  lemma ScopeIs(standings: Evidence.Standings, self: Events.Holder, lane: LaneID)
    ensures OwnScope(standings, self).Holds(lane) <==> HeldBySelf(standings, self, lane)
    ensures OwnScope(standings, self).Covers(lane) <==> InOwnScope(standings, self, lane)
  {
  }

  method ReadOwnScope(standings: Evidence.Standings, self: Events.Holder) returns (own: OwnWork)
    ensures own == OwnScope(standings, self)
    ensures forall lane :: own.Holds(lane) <==> HeldBySelf(standings, self, lane)
    ensures forall lane :: own.Covers(lane) <==> InOwnScope(standings, self, lane)
  {
    var lanes: set<LaneID>, epics: set<ID> := {}, {};
    var left := standings.Keys;
    while left != {}
      invariant left <= standings.Keys
      invariant lanes == set lane | lane in standings.Keys - left &&
        HoldGate.RelationOf(standings[lane], self).LaneOurs?
      invariant epics == set lane | lane in lanes && lane.epic != "" :: lane.epic
      decreases left
    {
      var lane :| lane in left;
      left := left - {lane};
      if HoldGate.RelationOf(standings[lane], self) != HoldGate.LaneOurs {
        continue;
      }
      lanes := lanes + {lane};
      if lane.epic != "" {
        epics := epics + {lane.epic};
      }
    }
    own := OwnWork(lanes, epics);
    forall lane
      ensures own.Holds(lane) <==> HeldBySelf(standings, self, lane)
      ensures own.Covers(lane) <==> InOwnScope(standings, self, lane)
    {
      ScopeIs(standings, self, lane);
    }
  }

  datatype FocusScope = FocusScope(goals: seq<ID>, own: OwnWork)
  {
    predicate OnPath(row: Row) { goals == [] || exists a :: a in row.annotations && a.kind.FocusPath? }

    predicate Holds(row: Row, lane: LaneID) { OnPath(row) || own.Covers(lane) }
  }

  // ---- What routing concludes ----

  datatype RowReach = RowReach(id: ID, row: Row, kind: ReachKind)
  {
    /** The entry's words: a ticket that stands in for its epic is given with it. */
    function Name(): string { WorkName(id, row.Id()) }
  }

  function WorkName(dependency: ID, work: ID): string {
    if work == "" || work == dependency then dependency else work + " under " + dependency
  }

  datatype BlockerReach = BlockerReach(id: ID, best: Option<Reading>, clearable: bool)

  datatype PoolPick = PoolPick(row: Row, lane: LaneID, scope: FocusScope)

  datatype Narrowed = Narrowed(hidden: Row, scope: FocusScope)

  datatype Exhausted = Exhausted(
    epics: set<ID>, progress: Evidence.Progress, ownProgress: Evidence.Progress,
    blocked: seq<BlockerReach>, held: seq<RowReach>, offPath: seq<ID>, narrowing: Option<Narrowed>)

  datatype NextOutcome =
    | ServedFromClaim(row: Row)
    | ResumedOwnWork(row: Row)
    | ServedFromEpicLane(row: Row, lane: LaneID)
    | ServedFromNewLane(pick: PoolPick)
    | ServedFromDependency(row: Row, lane: LaneID, gates: ID, via: seq<Hop>, blocker: ID)
    | ServedPastExhaustion(pick: PoolPick, exhaustion: Exhausted)
    | ServedPastNarrowing(pick: PoolPick, narrowing: Narrowed)
    | OnlyExhausted(exhausted: Exhausted)
    | OnlyNarrowed(narrowed: Narrowed)
    | NoWork(unreachable: seq<RowReach>, offPath: seq<ID>)
  {
    /** The row handed over, if any. */
    function Served(): Option<Row> {
      match this
      case ServedFromClaim(row) => Some(row)
      case ResumedOwnWork(row) => Some(row)
      case ServedFromEpicLane(row, _) => Some(row)
      case ServedFromNewLane(pick) => Some(pick.row)
      case ServedFromDependency(row, _, _, _, _) => Some(row)
      case ServedPastExhaustion(pick, _) => Some(pick.row)
      case ServedPastNarrowing(pick, _) => Some(pick.row)
      case _ => None
    }

    /** The row the filter is said to hide, if any. */
    function Hidden(): Option<Row> {
      match this
      case ServedPastNarrowing(_, narrowing) => Some(narrowing.hidden)
      case OnlyNarrowed(narrowed) => Some(narrowed.hidden)
      case OnlyExhausted(exhausted) =>
        if exhausted.narrowing.Some? then Some(exhausted.narrowing.value.hidden) else None
      case _ => None
    }
  }

  function AnyRow(): Row -> bool { (row: Row) => true }

  function AnyLane(): LaneID -> bool { (lane: LaneID) => true }

  function Select(rows: seq<Row>, keep: Row -> bool): seq<Row> {
    if rows == [] then []
    else Select(rows[..|rows| - 1], keep) + if keep(rows[|rows| - 1]) then [rows[|rows| - 1]] else []
  }

  function Not(keep: Row -> bool): Row -> bool { (row: Row) => !keep(row) }

  function RowIds(rows: seq<Row>): seq<ID> {
    seq(|rows|, i requires 0 <= i < |rows| => rows[i].Id())
  }

  /** Step 3: this checkout's own scope has nothing the run may serve. whole is what
      the scope would serve unfiltered, pick and hidden what the pool offers filtered
      and unfiltered. */
  function Step3(
    whole: Option<(NextOutcome, Row)>, pick: Option<PoolPick>, hidden: Option<PoolPick>, exhausted: Exhausted,
    offPath: seq<ID>): NextOutcome
  {
    if whole.Some? then
      var narrowing := Narrowed(whole.value.1, FocusScope([], OwnWork({}, {})));
      if pick.Some? then ServedPastNarrowing(pick.value, narrowing) else OnlyNarrowed(narrowing)
    else if pick.Some? then ServedPastExhaustion(pick.value, exhausted)
    else if hidden.Some? then
      OnlyExhausted(exhausted.(narrowing := Some(Narrowed(hidden.value.row, hidden.value.scope))))
    else OnlyExhausted(exhausted.(offPath := offPath))
  }

  /** Step 4: a checkout holding no lane starts at the pool. */
  function Step4(
    pick: Option<PoolPick>, hidden: Option<PoolPick>, unreachable: seq<RowReach>, offPath: seq<ID>): NextOutcome {
    if pick.Some? then ServedFromNewLane(pick.value)
    else if hidden.Some? then OnlyNarrowed(Narrowed(hidden.value.row, hidden.value.scope))
    else NoWork(unreachable, offPath)
  }

  /** The gathered queue and what the run derived about it, before any filter. */
  datatype World = World(
    rows: seq<Row>, details: map<ID, Relations>, epics: map<ID, Relations>, standings: Evidence.Standings,
    read: Evidence.Read, self: Events.Holder, focus: seq<ID>)
  {
    /** What ScopeProgress counts of the evidence the standings were derived from. */
    function Progress(inScope: LaneID -> bool): Evidence.Progress { Evidence.CountIn(read, read.issues, inScope) }

    function LaneOfRow(row: Row): LaneID { LaneOf(row.issue, ParentOf(details, row.Id())) }

    function StandingFor(row: Row): Standing.Standing { Evidence.Of(standings, LaneOfRow(row)) }

    function Verdict(row: Row): Capacity { CapacityFor(row, StandingFor(row), self) }

    function ReachFor(row: Row): ReachKind { ReachOf(row, StandingFor(row), self) }

    function Own(): OwnWork { OwnScope(standings, self) }

    function Scope(): FocusScope { FocusScope(focus, Own()) }

    function InFocus(): Row -> bool { (row: Row) => Scope().Holds(row, LaneOfRow(row)) }

    /** The rows the focus scope answers over, and the ones it keeps out. */
    function Pool(): seq<Row> { Select(rows, InFocus()) }

    function Withheld(): seq<Row> { Select(rows, Not(InFocus())) }

    // ---- The work toward each dependency ----

    /** What finishing a row is work toward: the row, and every epic above it. */
    function TowardOf(row: Row): seq<ID> {
      [row.Id()] + if row.Id() in details then EpicsAbove(details[row.Id()], epics) else []
    }

    function Index(work: map<ID, seq<Row>>, row: Row, ids: seq<ID>): map<ID, seq<Row>> {
      if ids == [] then work
      else
        var before, id := Index(work, row, ids[..|ids| - 1]), ids[|ids| - 1];
        before[id := (if id in before then before[id] else []) + [row]]
    }

    function WorkToward(n: nat): map<ID, seq<Row>>
      requires n <= |rows|
    {
      if n == 0 then map[] else Index(WorkToward(n - 1), rows[n - 1], TowardOf(rows[n - 1]))
    }

    function Work(): map<ID, seq<Row>> { WorkToward(|rows|) }

    function WorkOn(id: ID): seq<Row> { if id in Work() then Work()[id] else [] }

    function QueueOf(inScope: LaneID -> bool): Queue {
      Queue(rows, (row: Row) => LaneOfRow(row), inScope, (row: Row) => ReachFor(row), Work())
    }

    function OwnHolds(): LaneID -> bool { (lane: LaneID) => Own().Holds(lane) }

    function OwnCovers(): LaneID -> bool { (lane: LaneID) => Own().Covers(lane) }

    function RestOfEpic(): LaneID -> bool { (lane: LaneID) => Own().Covers(lane) && !Own().Holds(lane) }

    // ---- Picks ----

    predicate Admits(row: Row, serves: Row -> bool, inScope: LaneID -> bool, accept: set<Capacity>) {
      serves(row) && inScope(LaneOfRow(row)) && Verdict(row) in accept
    }

    /** The first row, in rank order, the run may serve that sits in an admitted
        lane and carries an accepted verdict. */
    function PickFrom(
      from: seq<Row>, serves: Row -> bool, inScope: LaneID -> bool, accept: set<Capacity>): Option<Row> {
      if from == [] then None
      else if Admits(from[0], serves, inScope, accept) then Some(from[0])
      else PickFrom(from[1..], serves, inScope, accept)
    }

    function FirstTakeable(work: seq<Row>, serves: Row -> bool): Option<Row> {
      if work == [] then None
      else if serves(work[0]) && ReachFor(work[0]).Takeable? then Some(work[0])
      else FirstTakeable(work[1..], serves)
    }

    /** The first work this run may itself take toward closing a dependency the
        walk found. */
    function OnPathDependency(deps: seq<GatedDep>, serves: Row -> bool): Option<(NextOutcome, Row)> {
      if deps == [] then None
      else
        var found := FirstTakeable(WorkOn(deps[0].id), serves);
        if found.Some? then
          Some((ServedFromDependency(found.value, LaneOfRow(found.value), deps[0].gates, deps[0].via, deps[0].id),
            found.value))
        else OnPathDependency(deps[1..], serves)
    }

    function FromPool(serves: Row -> bool): Option<PoolPick> {
      match PickFrom(Pool(), serves, AnyLane(), {ServeWork})
      case None => None
      case Some(row) => Some(PoolPick(row, LaneOfRow(row), Scope()))
    }

    // ---- Diagnostics ----

    function ReachesOf(from: seq<Row>): seq<RowReach> {
      seq(|from|, i requires 0 <= i < |from| => RowReach(from[i].Id(), from[i], ReachFor(from[i])))
    }

    predicate HeldHere(row: Row) {
      Own().Covers(LaneOfRow(row)) && (ReachFor(row) == ReachKind.HeldByItself || ReachFor(row).AwaitingOutside?) &&
      row.Readiness().HeldByItself()
    }

    /** An open ticket still waits on work, or any ticket on an outside event. */
    predicate WaitsElsewhere(work: Row) {
      work.Readiness().AwaitsOutside() || (work.issue.state.Open? && |work.Prerequisites()| > 0)
    }

    predicate AnyWaits(id: ID) { exists work :: work in WorkOn(id) && WaitsElsewhere(work) }

    function BlockersOf(deps: seq<GatedDep>): seq<BlockerReach> {
      seq(|deps|, i requires 0 <= i < |deps| =>
        BlockerReach(deps[i].id, deps[i].best, !AnyWaits(deps[i].id)))
    }

    function GatingMine(): seq<GatedDep> { QueueOf(OwnHolds()).Gating() }

    function GatingEpic(): seq<GatedDep> { QueueOf(OwnCovers()).Gating() }

    // ---- The precedence ----

    /** Steps 1 to 2b, for a run that may serve only the rows serves accepts. */
    function OwnSteps(serves: Row -> bool): Option<(NextOutcome, Row)> {
      var mine := PickFrom(rows, serves, OwnHolds(), {ServeWork, ResumeWork});
      if mine.Some? then
        Some((
          if Verdict(mine.value).ResumeWork? then ResumedOwnWork(mine.value) else ServedFromClaim(mine.value),
          mine.value))
      else
        var unblocksMine := OnPathDependency(GatingMine(), serves);
        if unblocksMine.Some? then unblocksMine
        else
          var ofEpic := PickFrom(rows, serves, RestOfEpic(), {ServeWork});
          if ofEpic.Some? then Some((ServedFromEpicLane(ofEpic.value, LaneOfRow(ofEpic.value)), ofEpic.value))
          else OnPathDependency(GatingEpic(), serves)
    }

    function Exhaustion(): Exhausted {
      Exhausted(Own().epics, Progress(OwnCovers()), Progress(OwnHolds()), BlockersOf(GatingEpic()),
        ReachesOf(Select(rows, (row: Row) => HeldHere(row))), [], None)
    }

    function OffPath(selects: Row -> bool): seq<ID> { RowIds(Select(Withheld(), selects)) }

    function PassedOver(selects: Row -> bool): seq<RowReach> { ReachesOf(Select(Pool(), selects)) }

    function PastOwn(selects: Row -> bool): NextOutcome {
      Step3(OwnSteps(AnyRow()), FromPool(selects), FromPool(AnyRow()), Exhaustion(), OffPath(selects))
    }

    function FromAnywhere(selects: Row -> bool): NextOutcome {
      Step4(FromPool(selects), FromPool(AnyRow()), PassedOver(selects), OffPath(selects))
    }

    /** selects is the filter the run was given. */
    function RouteNext(selects: Row -> bool): NextOutcome {
      if Own().lanes == {} then FromAnywhere(selects)
      else
        var served := OwnSteps(selects);
        if served.Some? then served.value.0 else PastOwn(selects)
    }
  }
}
