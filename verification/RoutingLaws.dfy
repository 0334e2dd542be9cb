// What a run of `lit next` may and may not hand over, and what its diagnostics
// may say.
module RoutingLaws {
  import opened Model
  import opened Readiness
  import opened Gating
  import opened Routing
  import Events
  import Standing
  import HoldGate
  import GatingCorrect

  // ---- Picks ----

  /** A pick is the first admitted row; with none admitted there is no pick. */
  lemma {:induction false} PickIsFirst(
    w: World, from: seq<Row>, serves: Row -> bool, inScope: LaneID -> bool, accept: set<Capacity>)
    returns (i: nat)
    ensures w.PickFrom(from, serves, inScope, accept).Some? ==>
      i < |from| && w.PickFrom(from, serves, inScope, accept) == Some(from[i]) &&
        w.Admits(from[i], serves, inScope, accept)
    ensures forall j :: 0 <= j < i && j < |from| ==> !w.Admits(from[j], serves, inScope, accept)
    ensures w.PickFrom(from, serves, inScope, accept).None? ==>
      forall row :: row in from ==> !w.Admits(row, serves, inScope, accept)
  {
    i := 0;
    if from != [] && !w.Admits(from[0], serves, inScope, accept) {
      i := PickIsFirst(w, from[1..], serves, inScope, accept);
      assert from == [from[0]] + from[1..];
      i := i + 1;
    }
  }

  /** Serving fewer rows moves a pick only when it drops the pick. */
  lemma {:induction false} NarrowerPick(
    w: World, from: seq<Row>, serves: Row -> bool, inScope: LaneID -> bool, accept: set<Capacity>)
    ensures var whole := w.PickFrom(from, AnyRow(), inScope, accept);
      && (whole.None? ==> w.PickFrom(from, serves, inScope, accept).None?)
      && (whole.Some? && serves(whole.value) ==> w.PickFrom(from, serves, inScope, accept) == whole)
  {
    if from != [] {
      NarrowerPick(w, from[1..], serves, inScope, accept);
    }
  }

  lemma {:induction false} FirstTakeableIs(w: World, work: seq<Row>, serves: Row -> bool)
    ensures var found := w.FirstTakeable(work, serves);
      && (found.Some? ==> found.value in work && serves(found.value) && w.ReachFor(found.value).Takeable?)
      && (found.None? ==> forall row :: row in work && serves(row) ==> !w.ReachFor(row).Takeable?)
  {
    if work != [] {
      assert work == [work[0]] + work[1..];
      FirstTakeableIs(w, work[1..], serves);
    }
  }

  lemma {:induction false} NarrowerTakeable(w: World, work: seq<Row>, serves: Row -> bool)
    ensures var whole := w.FirstTakeable(work, AnyRow());
      && (whole.None? ==> w.FirstTakeable(work, serves).None?)
      && (whole.Some? && serves(whole.value) ==> w.FirstTakeable(work, serves) == whole)
  {
    if work != [] {
      NarrowerTakeable(w, work[1..], serves);
    }
  }

  lemma {:induction false} NarrowerDependency(w: World, deps: seq<GatedDep>, serves: Row -> bool)
    ensures var whole := w.OnPathDependency(deps, AnyRow());
      && (whole.None? ==> w.OnPathDependency(deps, serves).None?)
      && (whole.Some? && serves(whole.value.1) ==> w.OnPathDependency(deps, serves) == whole)
  {
    if deps != [] {
      NarrowerTakeable(w, w.WorkOn(deps[0].id), serves);
      NarrowerDependency(w, deps[1..], serves);
    }
  }

  ghost predicate NothingToTake(w: World, dep: GatedDep, serves: Row -> bool) {
    forall row :: row in w.WorkOn(dep.id) && serves(row) ==> !w.ReachFor(row).Takeable?
  }

  /** A dependency handed over: the row is work toward it this run may take. */
  ghost predicate FromDep(w: World, dep: GatedDep, serves: Row -> bool, outcome: NextOutcome, row: Row) {
    && outcome == ServedFromDependency(row, w.LaneOfRow(row), dep.gates, dep.via, dep.id)
    && row in w.WorkOn(dep.id) && serves(row) && w.ReachFor(row).Takeable?
  }

  /** The dependency served is the first the walk found with work to take, and
      the row the first of that work; with nothing served, none has any. */
  lemma {:induction false} DependencyIsFirst(w: World, deps: seq<GatedDep>, serves: Row -> bool) returns (i: nat)
    ensures w.OnPathDependency(deps, serves).Some? ==>
      i < |deps| &&
        FromDep(w, deps[i], serves, w.OnPathDependency(deps, serves).value.0, w.OnPathDependency(deps, serves).value.1)
    ensures forall j :: 0 <= j < i && j < |deps| ==> NothingToTake(w, deps[j], serves)
    ensures w.OnPathDependency(deps, serves).None? ==> forall j :: 0 <= j < |deps| ==> NothingToTake(w, deps[j], serves)
  {
    i := 0;
    if deps != [] {
      FirstTakeableIs(w, w.WorkOn(deps[0].id), serves);
      if w.FirstTakeable(w.WorkOn(deps[0].id), serves).None? {
        i := DependencyIsFirst(w, deps[1..], serves);
        assert deps == [deps[0]] + deps[1..];
        i := i + 1;
      }
    }
  }

  // ---- The work index ----

  ghost predicate Indexed(work: map<ID, seq<Row>>, rows: seq<Row>) {
    forall id, row :: id in work && row in work[id] ==> row in rows
  }

  lemma {:induction false} IndexKeeps(w: World, work: map<ID, seq<Row>>, row: Row, ids: seq<ID>, rows: seq<Row>)
    requires Indexed(work, rows) && row in rows
    ensures Indexed(w.Index(work, row, ids), rows)
  {
    if ids != [] {
      IndexKeeps(w, work, row, ids[..|ids| - 1], rows);
    }
  }

  /** Work toward anything is among the gathered rows. */
  lemma {:induction false} WorkIsGathered(w: World, n: nat)
    requires n <= |w.rows|
    ensures Indexed(w.WorkToward(n), w.rows)
  {
    if n > 0 {
      WorkIsGathered(w, n - 1);
      IndexKeeps(w, w.WorkToward(n - 1), w.rows[n - 1], w.TowardOf(w.rows[n - 1]), w.rows);
    }
  }

  // ---- Verdicts ----

  lemma TakeableIsCapacity(w: World, row: Row)
    ensures w.ReachFor(row).Takeable? <==> w.Verdict(row) != RouteAround
    ensures w.Verdict(row) != RouteAround ==>
      HoldGate.RelationOf(w.StandingFor(row), w.self) != HoldGate.LaneHeldForeign && !row.Readiness().AwaitsOutside()
    ensures w.Verdict(row).ResumeWork? ==> w.Own().Holds(w.LaneOfRow(row))
  {
  }

  /** What the verdict comes to: a row is takeable exactly when nobody else holds its
      lane, it waits on no outside event, and it is underway or ready; and it is
      handed back rather than served exactly when it is underway and ours. */
  lemma CapacityIs(row: Row, st: Standing.Standing, self: Events.Holder)
    ensures CapacityFor(row, st, self) != RouteAround <==>
      !(st.Held? && HoldGate.RelationOf(st, self) != HoldGate.LaneOurs) && !row.Readiness().AwaitsOutside() &&
      (row.issue.state == InProgress || row.Readiness().IsReady())
    ensures CapacityFor(row, st, self) == ResumeWork <==>
      row.issue.state == InProgress && HoldGate.RelationOf(st, self) == HoldGate.LaneOurs &&
        !row.Readiness().AwaitsOutside()
  {
  }

  /** What each reading of a row that is not takeable means. */
  lemma ReachIs(row: Row, st: Standing.Standing, self: Events.Holder)
    requires CapacityFor(row, st, self) == RouteAround
    ensures var reach, foreign, r :=
      ReachOf(row, st, self), HoldGate.RelationOf(st, self) == HoldGate.LaneHeldForeign, row.Readiness();
      && (reach == AwaitingOutside <==> r.AwaitsOutside())
      && (reach == HeldFresh <==> foreign && !r.AwaitsOutside())
      && (reach == ReachKind.HeldByItself <==> !foreign && !r.AwaitsOutside() && r.HeldByItself())
      && (reach == NotReady <==> !foreign && !r.HeldByItself() && WaitingReasons(r.blocking) != [])
  {
    ReadyOncePrerequisitesFinish(row.Readiness());
  }

  // ---- Where each pick sits ----

  /** The row is gathered, the filter selects it, and this checkout may take it. */
  ghost predicate Servable(w: World, selects: Row -> bool, row: Row) {
    row in w.rows && selects(row) && w.Verdict(row) != RouteAround
  }

  /** Each outcome that hands a row over hands one that sits where its name says. */
  ghost predicate SitsRight(w: World, selects: Row -> bool, outcome: NextOutcome) {
    match outcome
    case ServedFromClaim(row) =>
      Servable(w, selects, row) && w.Verdict(row).ServeWork? && w.Own().Holds(w.LaneOfRow(row))
    case ResumedOwnWork(row) =>
      Servable(w, selects, row) && w.Verdict(row).ResumeWork? && w.Own().Holds(w.LaneOfRow(row))
    case ServedFromEpicLane(row, lane) =>
      Servable(w, selects, row) && lane == w.LaneOfRow(row) && w.Own().Covers(lane) && !w.Own().Holds(lane)
    case ServedFromDependency(row, lane, gates, via, blocker) =>
      Servable(w, selects, row) && lane == w.LaneOfRow(row) && row in w.WorkOn(blocker) && !w.Own().Holds(lane) &&
      exists dep: GatedDep :: dep.id == blocker && dep.gates == gates && dep.via == via &&
        (dep in w.GatingMine() || (dep in w.GatingEpic() && !w.Own().Covers(lane)))
    case ServedFromNewLane(pick) => PoolRow(w, selects, pick) && w.Own().lanes == {}
    case ServedPastExhaustion(pick, _) => PoolRow(w, selects, pick) && !w.Own().Covers(pick.lane)
    case ServedPastNarrowing(pick, _) => PoolRow(w, selects, pick) && !w.Own().Covers(pick.lane)
    case _ => true
  }

  ghost predicate PoolRow(w: World, selects: Row -> bool, pick: PoolPick) {
    Servable(w, selects, pick.row) && pick.lane == w.LaneOfRow(pick.row) && pick.scope == w.Scope() &&
    w.Verdict(pick.row).ServeWork? && w.Scope().Holds(pick.row, pick.lane)
  }

  lemma {:induction false} SelectIs(rows: seq<Row>, keep: Row -> bool, row: Row)
    ensures row in Select(rows, keep) <==> row in rows && keep(row)
  {
    if rows != [] {
      assert rows == rows[..|rows| - 1] + [rows[|rows| - 1]];
      SelectIs(rows[..|rows| - 1], keep, row);
    }
  }

  lemma PoolPickSits(w: World, selects: Row -> bool)
    ensures w.FromPool(selects).Some? ==> PoolRow(w, selects, w.FromPool(selects).value)
    ensures w.FromPool(selects).None? ==> forall row :: row in w.Pool() && selects(row) ==> !w.Verdict(row).ServeWork?
  {
    var i := PickIsFirst(w, w.Pool(), selects, AnyLane(), {ServeWork});
    if w.FromPool(selects).Some? {
      SelectIs(w.rows, w.InFocus(), w.Pool()[i]);
    } else {
      forall row | row in w.Pool() && selects(row) ensures !w.Verdict(row).ServeWork? {
        assert !w.Admits(row, selects, AnyLane(), {ServeWork});
      }
    }
  }

  lemma DependencySits(w: World, deps: seq<GatedDep>, selects: Row -> bool)
    ensures w.OnPathDependency(deps, selects).Some? ==>
      var (outcome, row) := w.OnPathDependency(deps, selects).value;
      Servable(w, selects, row) && exists dep :: dep in deps && FromDep(w, dep, selects, outcome, row)
  {
    var i := DependencyIsFirst(w, deps, selects);
    if w.OnPathDependency(deps, selects).Some? {
      WorkIsGathered(w, |w.rows|);
      var row := w.OnPathDependency(deps, selects).value.1;
      TakeableIsCapacity(w, row);
      assert deps[i] in deps;
    }
  }

  lemma Step1Sits(w: World, selects: Row -> bool)
    ensures var pick := w.PickFrom(w.rows, selects, w.OwnHolds(), {ServeWork, ResumeWork});
      && (pick.Some? ==> Servable(w, selects, pick.value) && w.Own().Holds(w.LaneOfRow(pick.value)))
      && (pick.None? ==> forall row :: Servable(w, selects, row) ==> !w.Own().Holds(w.LaneOfRow(row)))
  {
    var i := PickIsFirst(w, w.rows, selects, w.OwnHolds(), {ServeWork, ResumeWork});
    if w.PickFrom(w.rows, selects, w.OwnHolds(), {ServeWork, ResumeWork}).None? {
      forall row | Servable(w, selects, row) ensures !w.Own().Holds(w.LaneOfRow(row)) {
        assert !w.Admits(row, selects, w.OwnHolds(), {ServeWork, ResumeWork});
      }
    }
  }

  lemma Step2Sits(w: World, selects: Row -> bool)
    ensures var pick := w.PickFrom(w.rows, selects, w.RestOfEpic(), {ServeWork});
      && (pick.Some? ==>
        Servable(w, selects, pick.value) && w.Own().Covers(w.LaneOfRow(pick.value)) &&
        !w.Own().Holds(w.LaneOfRow(pick.value)))
      && (pick.None? ==> forall row ::
        Servable(w, selects, row) && !w.Own().Holds(w.LaneOfRow(row)) ==> !w.Own().Covers(w.LaneOfRow(row)))
  {
    var i := PickIsFirst(w, w.rows, selects, w.RestOfEpic(), {ServeWork});
    if w.PickFrom(w.rows, selects, w.RestOfEpic(), {ServeWork}).None? {
      forall row | Servable(w, selects, row) && !w.Own().Holds(w.LaneOfRow(row))
        ensures !w.Own().Covers(w.LaneOfRow(row)) {
        TakeableIsCapacity(w, row);
        assert !w.Admits(row, selects, w.RestOfEpic(), {ServeWork});
      }
    }
  }

  lemma OwnStepsSit(w: World, selects: Row -> bool)
    ensures w.OwnSteps(selects).Some? ==>
      SitsRight(w, selects, w.OwnSteps(selects).value.0) &&
        w.OwnSteps(selects).value.0.Served() == Some(w.OwnSteps(selects).value.1)
    ensures w.OwnSteps(selects).None? ==>
      forall row :: Servable(w, selects, row) ==> !w.Own().Covers(w.LaneOfRow(row))
  {
    Step1Sits(w, selects);
    if w.PickFrom(w.rows, selects, w.OwnHolds(), {ServeWork, ResumeWork}).None? {
      DependencySits(w, w.GatingMine(), selects);
      if w.OnPathDependency(w.GatingMine(), selects).None? {
        Step2Sits(w, selects);
        if w.PickFrom(w.rows, selects, w.RestOfEpic(), {ServeWork}).None? {
          DependencySits(w, w.GatingEpic(), selects);
        }
      }
    }
  }

  /** Every pick sits where its variant says: own-lane picks in lanes we hold, a
      step 1b dependency in none of them, a step 2b dependency and a pick past
      exhaustion or past a narrowing outside our whole epic. */
  lemma PicksSitWhereTheySay(w: World, selects: Row -> bool)
    ensures SitsRight(w, selects, w.RouteNext(selects))
  {
    PoolPickSits(w, selects);
    if w.Own().lanes != {} {
      OwnStepsSit(w, selects);
    }
  }

  // ---- One step before another ----

  ghost predicate NoneHeld(w: World, selects: Row -> bool) {
    forall row :: Servable(w, selects, row) ==> !w.Own().Holds(w.LaneOfRow(row))
  }

  ghost predicate NoneCovered(w: World, selects: Row -> bool) {
    forall row :: Servable(w, selects, row) ==> !w.Own().Covers(w.LaneOfRow(row))
  }

  ghost predicate NothingGates(w: World, deps: seq<GatedDep>, selects: Row -> bool) {
    forall j :: 0 <= j < |deps| ==> NothingToTake(w, deps[j], selects)
  }

  /** No step serves while one ahead of it has anything to serve. */
  ghost predicate InPrecedence(w: World, selects: Row -> bool, outcome: NextOutcome) {
    match outcome
    case ServedFromClaim(_) => true
    case ResumedOwnWork(_) => true
    case ServedFromEpicLane(_, _) => NoneHeld(w, selects) && NothingGates(w, w.GatingMine(), selects)
    case ServedFromDependency(row, _, _, _, blocker) =>
      NoneHeld(w, selects) &&
      ((exists dep :: dep in w.GatingMine() && dep.id == blocker) ||
       (NothingGates(w, w.GatingMine(), selects) && NoneCovered(w, selects)))
    case _ =>
      w.Own().lanes == {} ||
      (NoneCovered(w, selects) && NothingGates(w, w.GatingMine(), selects) && NothingGates(w, w.GatingEpic(), selects))
  }

  lemma NothingToServe(w: World, deps: seq<GatedDep>, selects: Row -> bool)
    requires w.OnPathDependency(deps, selects).None?
    ensures NothingGates(w, deps, selects)
  {
    var i := DependencyIsFirst(w, deps, selects);
  }

  lemma DependencyOf(w: World, deps: seq<GatedDep>, selects: Row -> bool)
    requires w.OnPathDependency(deps, selects).Some?
    ensures var outcome := w.OnPathDependency(deps, selects).value.0;
      outcome.ServedFromDependency? && exists dep :: dep in deps && dep.id == outcome.blocker
  {
    var i := DependencyIsFirst(w, deps, selects);
    assert deps[i] in deps;
  }

  lemma CoveredOnceNoneHeld(w: World, selects: Row -> bool)
    requires NoneHeld(w, selects) && w.PickFrom(w.rows, selects, w.RestOfEpic(), {ServeWork}).None?
    ensures NoneCovered(w, selects)
  {
    Step2Sits(w, selects);
  }

  lemma OwnStepsInOrder(w: World, selects: Row -> bool)
    ensures w.OwnSteps(selects).Some? ==> InPrecedence(w, selects, w.OwnSteps(selects).value.0)
    ensures w.OwnSteps(selects).None? ==>
      NoneCovered(w, selects) && NothingGates(w, w.GatingMine(), selects) && NothingGates(w, w.GatingEpic(), selects)
  {
    Step1Sits(w, selects);
    if w.PickFrom(w.rows, selects, w.OwnHolds(), {ServeWork, ResumeWork}).None? {
      if w.OnPathDependency(w.GatingMine(), selects).Some? {
        DependencyOf(w, w.GatingMine(), selects);
      } else {
        NothingToServe(w, w.GatingMine(), selects);
        if w.PickFrom(w.rows, selects, w.RestOfEpic(), {ServeWork}).None? {
          CoveredOnceNoneHeld(w, selects);
          if w.OnPathDependency(w.GatingEpic(), selects).Some? {
            DependencyOf(w, w.GatingEpic(), selects);
          } else {
            NothingToServe(w, w.GatingEpic(), selects);
          }
        }
      }
    }
  }

  /** The precedence is kept: own lanes before what gates them, that before the rest
      of the epic, that before what gates it, and all of these before the pool. */
  lemma StepsInOrder(w: World, selects: Row -> bool)
    ensures InPrecedence(w, selects, w.RouteNext(selects))
    ensures w.RouteNext(selects).ServedFromNewLane? || w.RouteNext(selects).NoWork? ==> w.Own().lanes == {}
  {
    if w.Own().lanes == {} {
      Step4Serves(w.FromPool(selects), w.FromPool(AnyRow()), w.PassedOver(selects), w.OffPath(selects));
    } else {
      OwnStepsInOrder(w, selects);
      if w.OwnSteps(selects).Some? {
        OwnStepsAreSteps(w, selects);
      } else {
        Step3Serves(w.OwnSteps(AnyRow()), w.FromPool(selects), w.FromPool(AnyRow()), w.Exhaustion(),
          w.OffPath(selects));
      }
    }
  }

  predicate PastOwnScope(outcome: NextOutcome) {
    outcome.ServedPastExhaustion? || outcome.ServedPastNarrowing? || outcome.OnlyExhausted? || outcome.OnlyNarrowed?
  }

  lemma Step3Serves(
    whole: Option<(NextOutcome, Row)>, pick: Option<PoolPick>, hidden: Option<PoolPick>, exhausted: Exhausted,
    offPath: seq<ID>)
    ensures PastOwnScope(Step3(whole, pick, hidden, exhausted, offPath))
  {
  }

  lemma Step4Serves(pick: Option<PoolPick>, hidden: Option<PoolPick>, unreachable: seq<RowReach>, offPath: seq<ID>)
    ensures var outcome := Step4(pick, hidden, unreachable, offPath);
      outcome.ServedFromNewLane? || outcome.OnlyNarrowed? || outcome.NoWork?
  {
  }

  /** With anything of its own lanes to serve, a run serves from them. */
  lemma OwnLanesFirst(w: World, selects: Row -> bool, row: Row)
    requires Servable(w, selects, row) && w.Own().Holds(w.LaneOfRow(row))
    ensures w.RouteNext(selects).ServedFromClaim? || w.RouteNext(selects).ResumedOwnWork?
  {
    assert !NoneHeld(w, selects);
    HeldComesFirst(w, selects);
  }

  lemma HeldComesFirst(w: World, selects: Row -> bool)
    requires !NoneHeld(w, selects)
    ensures w.OwnSteps(selects).Some? &&
      (w.OwnSteps(selects).value.0.ServedFromClaim? || w.OwnSteps(selects).value.0.ResumedOwnWork?)
  {
    Step1Sits(w, selects);
  }

  /** A row handed over is one this checkout may take: in no lane another holder
      holds, and waiting on no outside event. */
  lemma ServedIsServable(w: World, selects: Row -> bool)
    ensures w.RouteNext(selects).Served().Some? ==>
      var row := w.RouteNext(selects).Served().value;
      Servable(w, selects, row) && HoldGate.RelationOf(w.StandingFor(row), w.self) != HoldGate.LaneHeldForeign &&
        !row.Readiness().AwaitsOutside()
  {
    PicksSitWhereTheySay(w, selects);
    if w.RouteNext(selects).Served().Some? {
      TakeableIsCapacity(w, w.RouteNext(selects).Served().value);
    }
  }

  // ---- The filter ----

  lemma NarrowerOwnSteps(w: World, serves: Row -> bool)
    ensures w.OwnSteps(AnyRow()).None? ==> w.OwnSteps(serves).None?
    ensures w.OwnSteps(AnyRow()).Some? && serves(w.OwnSteps(AnyRow()).value.1) ==>
      w.OwnSteps(serves) == w.OwnSteps(AnyRow())
  {
    NarrowerPick(w, w.rows, serves, w.OwnHolds(), {ServeWork, ResumeWork});
    NarrowerDependency(w, w.GatingMine(), serves);
    NarrowerPick(w, w.rows, serves, w.RestOfEpic(), {ServeWork});
    NarrowerDependency(w, w.GatingEpic(), serves);
  }

  lemma NarrowerPool(w: World, serves: Row -> bool)
    ensures w.FromPool(AnyRow()).None? ==> w.FromPool(serves).None?
    ensures w.FromPool(AnyRow()).Some? && serves(w.FromPool(AnyRow()).value.row) ==>
      w.FromPool(serves) == w.FromPool(AnyRow())
  {
    NarrowerPick(w, w.Pool(), serves, AnyLane(), {ServeWork});
  }

  lemma OwnStepServes(w: World, serves: Row -> bool)
    ensures w.OwnSteps(serves).Some? ==>
      w.OwnSteps(serves).value.0.Served() == Some(w.OwnSteps(serves).value.1) && serves(w.OwnSteps(serves).value.1) &&
      w.OwnSteps(serves).value.0.Hidden().None?
  {
    OwnStepsSit(w, serves);
    if w.OwnSteps(serves).Some? {
      OwnStepsAreSteps(w, serves);
    }
  }

  lemma PoolServes(w: World, serves: Row -> bool)
    ensures w.FromPool(serves).Some? ==> serves(w.FromPool(serves).value.row)
  {
    PoolPickSits(w, serves);
  }

  /** asked is whole, narrowed by the filter and nothing else. */
  ghost predicate Narrows(whole: NextOutcome, asked: NextOutcome, selects: Row -> bool) {
    && (whole.Served().Some? && selects(whole.Served().value) ==> asked == whole)
    && (asked.Served().None? ==> asked.Hidden() == whole.Served())
    && (asked.Hidden().Some? ==> asked.Hidden() == whole.Served() && !selects(whole.Served().value))
  }

  /** pick is what the pool offers of the rows selected, hidden of them all. */
  ghost predicate PoolNarrows(pick: Option<PoolPick>, hidden: Option<PoolPick>, selects: Row -> bool) {
    && (hidden.None? ==> pick.None?)
    && (pick.Some? ==> selects(pick.value.row))
    && (hidden.Some? && selects(hidden.value.row) ==> pick == hidden)
  }

  lemma Step4Narrows(
    pick: Option<PoolPick>, hidden: Option<PoolPick>, selects: Row -> bool, unreachable: seq<RowReach>,
    offPath: seq<ID>,
    unreachable': seq<RowReach>, offPath': seq<ID>)
    requires PoolNarrows(pick, hidden, selects)
    ensures Narrows(Step4(hidden, hidden, unreachable', offPath'), Step4(pick, hidden, unreachable, offPath), selects)
  {
  }

  lemma Step3Narrows(
    pick: Option<PoolPick>, hidden: Option<PoolPick>, selects: Row -> bool, exhausted: Exhausted, offPath: seq<ID>,
    offPath': seq<ID>)
    requires PoolNarrows(pick, hidden, selects) && exhausted.narrowing.None?
    ensures Narrows(Step3(None, hidden, hidden, exhausted, offPath'), Step3(None, pick, hidden, exhausted, offPath),
      selects)
  {
  }

  /** The scope would serve a row the filter hides: the pool's pick, if any, is
      served past it. */
  lemma Step3PastNarrowing(
    whole: NextOutcome, row: Row, pick: Option<PoolPick>, hidden: Option<PoolPick>, selects: Row -> bool,
    exhausted: Exhausted, offPath: seq<ID>)
    requires whole.Served() == Some(row) && !selects(row)
    ensures Narrows(whole, Step3(Some((whole, row)), pick, hidden, exhausted, offPath), selects)
  {
  }

  lemma PoolIsNarrowed(w: World, selects: Row -> bool)
    ensures PoolNarrows(w.FromPool(selects), w.FromPool(AnyRow()), selects)
  {
    NarrowerPool(w, selects);
    PoolServes(w, selects);
  }

  lemma AnywhereNarrows(w: World, selects: Row -> bool)
    ensures Narrows(w.FromAnywhere(AnyRow()), w.FromAnywhere(selects), selects)
  {
    PoolIsNarrowed(w, selects);
    Step4Narrows(w.FromPool(selects), w.FromPool(AnyRow()), selects, w.PassedOver(selects), w.OffPath(selects),
      w.PassedOver(AnyRow()), w.OffPath(AnyRow()));
  }

  lemma PastOwnNarrows(w: World, selects: Row -> bool)
    requires w.OwnSteps(AnyRow()).None?
    ensures Narrows(w.PastOwn(AnyRow()), w.PastOwn(selects), selects)
  {
    PoolIsNarrowed(w, selects);
    Step3Narrows(w.FromPool(selects), w.FromPool(AnyRow()), selects, w.Exhaustion(), w.OffPath(selects),
      w.OffPath(AnyRow()));
  }

  lemma PastNarrowingNarrows(w: World, selects: Row -> bool)
    requires w.OwnSteps(AnyRow()).Some? && w.OwnSteps(selects).None?
    ensures Narrows(w.OwnSteps(AnyRow()).value.0, w.PastOwn(selects), selects)
  {
    NarrowerOwnSteps(w, selects);
    OwnStepServes(w, AnyRow());
    Step3PastNarrowing(w.OwnSteps(AnyRow()).value.0, w.OwnSteps(AnyRow()).value.1,
      w.FromPool(selects), w.FromPool(AnyRow()), selects,
      w.Exhaustion(), w.OffPath(selects));
  }

  lemma OwnStepNarrows(w: World, selects: Row -> bool)
    requires w.OwnSteps(selects).Some?
    ensures w.OwnSteps(AnyRow()).Some? && Narrows(w.OwnSteps(AnyRow()).value.0, w.OwnSteps(selects).value.0, selects)
  {
    NarrowerOwnSteps(w, selects);
    OwnStepServes(w, selects);
    OwnStepServes(w, AnyRow());
  }

  /** A filter only narrows. When it selects the row the unfiltered run hands
      over, the outcome is the unfiltered one, whole; a run that hands back
      nothing names exactly the row the unfiltered run hands over, if there is
      one; and a row is said to be hidden only if it is that row and the filter
      leaves it out. */
  lemma FilterOnlyNarrows(w: World, selects: Row -> bool)
    ensures Narrows(w.RouteNext(AnyRow()), w.RouteNext(selects), selects)
  {
    if w.Own().lanes == {} {
      AnywhereNarrows(w, selects);
    } else if w.OwnSteps(selects).Some? {
      OwnStepNarrows(w, selects);
    } else if w.OwnSteps(AnyRow()).Some? {
      PastNarrowingNarrows(w, selects);
    } else {
      PastOwnNarrows(w, selects);
    }
  }

  // ---- What the diagnostics report ----

  ghost predicate Reported(rows: seq<RowReach>) {
    forall entry :: entry in rows ==> !entry.kind.Takeable?
  }

  ghost predicate BlockersReported(blocked: seq<BlockerReach>) {
    forall entry :: entry in blocked ==> entry.best.Some? ==> !entry.best.value.kind.Takeable?
  }

  /** What an outcome's diagnostic lists, with no takeable row among it. */
  ghost predicate ReportsNothingTakeable(outcome: NextOutcome) {
    match outcome
    case ServedPastExhaustion(_, exhausted) => BlockersReported(exhausted.blocked) && Reported(exhausted.held)
    case OnlyExhausted(exhausted) => BlockersReported(exhausted.blocked) && Reported(exhausted.held)
    case NoWork(unreachable, _) => Reported(unreachable)
    case _ => true
  }

  lemma GatingWorkIsWorkOn(w: World, inScope: LaneID -> bool, id: ID, row: Row)
    ensures w.QueueOf(inScope).Work(id) == w.WorkOn(id) && w.QueueOf(inScope).reachFor(row) == w.ReachFor(row)
  {
  }

  lemma BlockersNotTakeable(w: World)
    requires w.OnPathDependency(w.GatingEpic(), AnyRow()).None?
    ensures BlockersReported(w.BlockersOf(w.GatingEpic()))
  {
    var deps, q := w.GatingEpic(), w.QueueOf(w.OwnCovers());
    var blocked := w.BlockersOf(deps);
    var n := DependencyIsFirst(w, deps, AnyRow());
    forall entry | entry in blocked && entry.best.Some? ensures !entry.best.value.kind.Takeable? {
      var i :| 0 <= i < |blocked| && blocked[i] == entry;
      var r := GatingCorrect.CreditsTheFirstByTheShortest(q, deps[i]);
      var b := GatingCorrect.BestIsTheFirstOfTheMost(q, q.Work(deps[i].id));
      GatingWorkIsWorkOn(w, w.OwnCovers(), deps[i].id, entry.best.value.row);
      assert NothingToTake(w, deps[i], AnyRow());
      assert w.WorkOn(deps[i].id)[b] in w.WorkOn(deps[i].id);
    }
  }

  lemma HeldNotTakeable(w: World, rows: seq<Row>)
    requires forall row :: row in rows ==> !w.ReachFor(row).Takeable?
    ensures Reported(w.ReachesOf(rows))
  {
    forall entry | entry in w.ReachesOf(rows) ensures !entry.kind.Takeable? {
      var i :| 0 <= i < |rows| && w.ReachesOf(rows)[i] == entry;
      assert rows[i] in rows;
    }
  }

  lemma ExhaustionNotTakeable(w: World)
    requires w.OwnSteps(AnyRow()).None?
    ensures BlockersReported(w.Exhaustion().blocked) && Reported(w.Exhaustion().held)
  {
    NothingGatingServed(w);
    BlockersNotTakeable(w);
    HeldHereNotTakeable(w);
  }

  lemma NothingGatingServed(w: World)
    requires w.OwnSteps(AnyRow()).None?
    ensures w.OnPathDependency(w.GatingEpic(), AnyRow()).None?
  {
  }

  lemma HeldHereNotTakeable(w: World)
    ensures Reported(w.Exhaustion().held)
  {
    var held := Select(w.rows, (row: Row) => w.HeldHere(row));
    forall row | row in held ensures !w.ReachFor(row).Takeable? {
      SelectIs(w.rows, (row: Row) => w.HeldHere(row), row);
    }
    HeldNotTakeable(w, held);
  }

  lemma PoolNotTakeable(w: World, selects: Row -> bool)
    requires w.FromPool(AnyRow()).None? && w.Own().lanes == {}
    ensures Reported(w.PassedOver(selects))
  {
    PoolPickSits(w, AnyRow());
    forall row | row in Select(w.Pool(), selects) ensures !w.ReachFor(row).Takeable? {
      SelectIs(w.Pool(), selects, row);
      TakeableIsCapacity(w, row);
    }
    HeldNotTakeable(w, Select(w.Pool(), selects));
  }

  /** No diagnostic carries a row this checkout could take, so the tables of
      words bounded by the takeable kind are never indexed past their end. */
  lemma NoDiagnosticIsTakeable(w: World, selects: Row -> bool)
    ensures ReportsNothingTakeable(w.RouteNext(selects))
  {
    if w.Own().lanes == {} {
      if w.FromPool(AnyRow()).None? {
        PoolNotTakeable(w, selects);
      }
      Step4Reports(w.FromPool(selects), w.FromPool(AnyRow()), w.PassedOver(selects), w.OffPath(selects));
    } else if w.OwnSteps(selects).None? {
      if w.OwnSteps(AnyRow()).None? {
        ExhaustionNotTakeable(w);
      }
      Step3Reports(w.OwnSteps(AnyRow()), w.FromPool(selects), w.FromPool(AnyRow()), w.Exhaustion(), w.OffPath(selects));
    } else {
      OwnStepsAreSteps(w, selects);
    }
  }

  lemma Step4Reports(pick: Option<PoolPick>, hidden: Option<PoolPick>, unreachable: seq<RowReach>, offPath: seq<ID>)
    requires hidden.None? ==> Reported(unreachable)
    ensures ReportsNothingTakeable(Step4(pick, hidden, unreachable, offPath))
  {
  }

  lemma Step3Reports(
    whole: Option<(NextOutcome, Row)>, pick: Option<PoolPick>, hidden: Option<PoolPick>, exhausted: Exhausted,
    offPath: seq<ID>)
    requires whole.None? ==> BlockersReported(exhausted.blocked) && Reported(exhausted.held)
    ensures ReportsNothingTakeable(Step3(whole, pick, hidden, exhausted, offPath))
  {
  }

  lemma OwnStepsAreSteps(w: World, serves: Row -> bool)
    requires w.OwnSteps(serves).Some?
    ensures var outcome := w.OwnSteps(serves).value.0;
      outcome.ServedFromClaim? || outcome.ResumedOwnWork? || outcome.ServedFromEpicLane? ||
        outcome.ServedFromDependency?
  {
    var i := DependencyIsFirst(w, w.GatingMine(), serves);
    var j := DependencyIsFirst(w, w.GatingEpic(), serves);
  }

  /** Exhaustion is never claimed over work there is: no gathered row in a lane
      our scope covers may be taken, and no work toward anything outside the
      scope that gates it, at any depth, may be taken either. */
  lemma ExhaustionIsTrue(w: World, selects: Row -> bool, id: ID, row: Row)
    requires w.RouteNext(selects).OnlyExhausted? || w.RouteNext(selects).ServedPastExhaustion?
    ensures row in w.rows && w.Own().Covers(w.LaneOfRow(row)) ==> !w.ReachFor(row).Takeable?
    ensures var q := w.QueueOf(w.OwnCovers());
      q.Reached(|q.rows|, id) && !q.Inside(id) && row in w.WorkOn(id) ==> !w.ReachFor(row).Takeable?
  {
    ExhaustedServesNothing(w, selects);
    OwnStepsSit(w, AnyRow());
    TakeableIsCapacity(w, row);
    assert row in w.rows && w.Own().Covers(w.LaneOfRow(row)) ==> !Servable(w, AnyRow(), row);
    GateHasNothing(w, id, row);
  }

  lemma ExhaustedServesNothing(w: World, selects: Row -> bool)
    requires w.RouteNext(selects).OnlyExhausted? || w.RouteNext(selects).ServedPastExhaustion?
    ensures w.OwnSteps(AnyRow()).None? && w.OnPathDependency(w.GatingEpic(), AnyRow()).None?
  {
    if w.OwnSteps(selects).Some? {
      OwnStepsAreSteps(w, selects);
    }
    Step3Exhausts(w.OwnSteps(AnyRow()), w.FromPool(selects), w.FromPool(AnyRow()), w.Exhaustion(), w.OffPath(selects));
    if w.OwnSteps(AnyRow()).None? {
      NoStepNoDependency(w, AnyRow());
    }
  }

  lemma Step3Exhausts(
    whole: Option<(NextOutcome, Row)>, pick: Option<PoolPick>, hidden: Option<PoolPick>, exhausted: Exhausted,
    offPath: seq<ID>)
    ensures var outcome := Step3(whole, pick, hidden, exhausted, offPath);
      outcome.OnlyExhausted? || outcome.ServedPastExhaustion? ==> whole.None?
  {
  }

  lemma NoStepNoDependency(w: World, serves: Row -> bool)
    requires w.OwnSteps(serves).None?
    ensures w.OnPathDependency(w.GatingEpic(), serves).None?
  {
  }

  lemma GateHasNothing(w: World, id: ID, row: Row)
    requires w.OnPathDependency(w.GatingEpic(), AnyRow()).None?
    ensures var q := w.QueueOf(w.OwnCovers());
      q.Reached(|q.rows|, id) && !q.Inside(id) && row in w.WorkOn(id) ==> !w.ReachFor(row).Takeable?
  {
    var q := w.QueueOf(w.OwnCovers());
    if q.Reached(|q.rows|, id) && !q.Inside(id) && row in w.WorkOn(id) {
      GatingCorrect.CollectsExactlyTheGates(q, id);
      var dep :| dep in q.Gating() && dep.id == id;
      NothingOfAny(w, w.GatingEpic(), dep);
    }
  }

  lemma NothingOfAny(w: World, deps: seq<GatedDep>, dep: GatedDep)
    requires w.OnPathDependency(deps, AnyRow()).None? && dep in deps
    ensures NothingToTake(w, dep, AnyRow())
  {
    var n := DependencyIsFirst(w, deps, AnyRow());
    var i :| 0 <= i < |deps| && deps[i] == dep;
  }

  /** The dependency a run hands over gates the highest-ranked of our rows that
      any takeable work would unblock, and is among the nearest to it. */
  lemma RankThenNearness(w: World, inScope: LaneID -> bool, serves: Row -> bool) returns (i: nat, r: nat)
    requires w.OnPathDependency(w.QueueOf(inScope).Gating(), serves).Some?
    ensures var q := w.QueueOf(inScope); var deps := q.Gating();
      && i < |deps| &&
        FromDep(w, deps[i], serves, w.OnPathDependency(deps, serves).value.0, w.OnPathDependency(deps, serves).value.1)
      && q.FirstTo(r, deps[i].id) && deps[i].gates == q.rows[r].Id() && q.Shortest(q.rows[r], deps[i].via, deps[i].id)
      && (forall j: nat, r': nat :: j < |deps| && !NothingToTake(w, deps[j], serves) && q.FirstTo(r', deps[j].id) ==>
            r < r' || (r == r' && |deps[i].via| <= |deps[j].via|))
  {
    var q := w.QueueOf(inScope);
    var deps := q.Gating();
    i := DependencyIsFirst(w, deps, serves);
    r := GatingCorrect.CreditsTheFirstByTheShortest(q, deps[i]);
    GatingCorrect.CollectsInWalkOrder(q);
    forall j: nat, r': nat | j < |deps| && !NothingToTake(w, deps[j], serves) && q.FirstTo(r', deps[j].id)
      ensures r < r' || (r == r' && |deps[i].via| <= |deps[j].via|)
    {
      NoEarlier(w, q, deps, serves, i, j, r, r');
    }
  }

  lemma NoEarlier(w: World, q: Queue, deps: seq<GatedDep>, serves: Row -> bool, i: nat, j: nat, r: nat, r': nat)
    requires GatingCorrect.InWalkOrder(q, deps) && i < |deps| && j < |deps|
    requires j < i ==> NothingToTake(w, deps[j], serves)
    requires !NothingToTake(w, deps[j], serves) && q.FirstTo(r, deps[i].id) && q.FirstTo(r', deps[j].id)
    ensures r < r' || (r == r' && |deps[i].via| <= |deps[j].via|)
  {
    if i < j {
      GatingCorrect.InOrder(q, deps, i, j, r, r');
    } else {
      GatingCorrect.FirstIsOne(q, r, r', deps[i].id);
    }
  }

  // ---- NoWork accounts for every row ----

  lemma {:induction false} SelectCount(rows: seq<Row>, keep: Row -> bool, row: Row)
    ensures multiset(Select(rows, keep))[row] == if keep(row) then multiset(rows)[row] else 0
  {
    if rows != [] {
      assert rows == rows[..|rows| - 1] + [rows[|rows| - 1]];
      SelectCount(rows[..|rows| - 1], keep, row);
    }
  }

  /** Focus splits the rows the filter selects, losing none and repeating none. */
  lemma FocusSplits(w: World, selects: Row -> bool)
    ensures multiset(Select(w.Pool(), selects)) + multiset(Select(w.Withheld(), selects)) ==
      multiset(Select(w.rows, selects))
  {
    forall row
      ensures multiset(Select(w.Pool(), selects))[row] + multiset(Select(w.Withheld(), selects))[row] ==
        multiset(Select(w.rows, selects))[row]
    {
      SelectCount(w.Pool(), selects, row);
      SelectCount(w.Withheld(), selects, row);
      SelectCount(w.rows, selects, row);
      SelectCount(w.rows, w.InFocus(), row);
      SelectCount(w.rows, Not(w.InFocus()), row);
    }
  }

  function RowsOf(entries: seq<RowReach>): seq<Row> {
    seq(|entries|, i requires 0 <= i < |entries| => entries[i].row)
  }

  /** A run with no work accounts for every row the filter selects, once: in the
      pool and passed over, or withheld by the focus; both lists are empty
      exactly when the filter selects nothing. */
  lemma NoWorkAccountsForEveryRow(w: World, selects: Row -> bool)
    requires w.RouteNext(selects).NoWork?
    ensures var outcome := w.RouteNext(selects);
      && outcome.offPath == RowIds(Select(w.Withheld(), selects))
      && multiset(RowsOf(outcome.unreachable)) + multiset(Select(w.Withheld(), selects)) ==
        multiset(Select(w.rows, selects))
      && (outcome.unreachable == [] && outcome.offPath == [] <==> forall row :: row in w.rows ==> !selects(row))
  {
    NoWorkIsStep4(w, selects);
    ReachesAreOf(w, Select(w.Pool(), selects));
    FocusSplits(w, selects);
    EmptyWhenNoneSelected(w.rows, selects, Select(w.Pool(), selects), Select(w.Withheld(), selects));
  }

  lemma NoWorkIsStep4(w: World, selects: Row -> bool)
    requires w.RouteNext(selects).NoWork?
    ensures w.RouteNext(selects) == NoWork(w.PassedOver(selects), w.OffPath(selects))
  {
    if w.Own().lanes != {} && w.OwnSteps(selects).Some? {
      OwnStepsAreSteps(w, selects);
    }
  }

  lemma ReachesAreOf(w: World, rows: seq<Row>)
    ensures RowsOf(w.ReachesOf(rows)) == rows && |w.ReachesOf(rows)| == |rows|
  {
  }

  lemma EmptyWhenNoneSelected(rows: seq<Row>, selects: Row -> bool, a: seq<Row>, b: seq<Row>)
    requires multiset(a) + multiset(b) == multiset(Select(rows, selects))
    ensures a == [] && b == [] <==> forall row :: row in rows ==> !selects(row)
  {
    var all := Select(rows, selects);
    assert |multiset(a)| + |multiset(b)| == |multiset(all)|;
    if row :| row in rows && selects(row) {
      SelectIs(rows, selects, row);
    } else if all != [] {
      SelectIs(rows, selects, all[0]);
    }
  }
}
