// What routing's scopes, pool and diagnostics hold, said over the standings it read and
// the rows' own annotations and states.
module RoutingScope {
  import opened Model
  import opened Readiness
  import opened Gating
  import opened Routing
  import opened RoutingLaws
  import opened RoutingExhaustion
  import opened GatingOpen
  import Events
  import Standing
  import Evidence
  import HoldGate

  // ---- Which lanes are ours, and which our scope covers ----

  /** The epics named are those of the lanes held, a lane of one having none. */
  lemma EpicsAre(standings: Evidence.Standings, self: Events.Holder, epic: ID)
    ensures epic in OwnScope(standings, self).epics <==>
      epic != "" && exists held :: HeldBySelf(standings, self, held) && held.epic == epic
  {
    if held :| HeldBySelf(standings, self, held) && held.epic == epic {
      ScopeIs(standings, self, held);
    }
  }

  /** A checkout that holds lanes of one and nothing else has those for its whole scope:
      no other ticket is served it as its epic's. */
  lemma LanesOfOneCoverThemselves(w: World, selects: Row -> bool)
    requires forall lane :: HeldBySelf(w.standings, w.self, lane) ==> lane.epic == ""
    ensures forall lane :: w.Own().Covers(lane) <==> HeldBySelf(w.standings, w.self, lane)
    ensures w.Own().epics == {} && !w.RouteNext(selects).ServedFromEpicLane?
  {
    forall lane ensures w.Own().Covers(lane) <==> HeldBySelf(w.standings, w.self, lane) {
      ScopeIs(w.standings, w.self, lane);
    }
    forall epic ensures epic !in w.Own().epics {
      EpicsAre(w.standings, w.self, epic);
    }
    PicksSitWhereTheySay(w, selects);
    forall lane ensures w.Own().Holds(lane) <==> HeldBySelf(w.standings, w.self, lane) {
      ScopeIs(w.standings, w.self, lane);
    }
  }

  // ---- The pool ----

  /** No focus is set, the row is on its path, or our scope covers its lane. */
  ghost predicate InPool(w: World, row: Row) {
    w.focus == [] || (exists a :: a in row.annotations && a.kind == FocusPath) ||
    InOwnScope(w.standings, w.self, w.LaneOfRow(row))
  }

  lemma PoolIs(w: World, row: Row)
    ensures row in w.Pool() <==> row in w.rows && InPool(w, row)
    ensures row in w.Withheld() <==> row in w.rows && !InPool(w, row)
  {
    ScopeIs(w.standings, w.self, w.LaneOfRow(row));
    SelectIs(w.rows, w.InFocus(), row);
    SelectIs(w.rows, Not(w.InFocus()), row);
  }

  /** What a filter keeps stands in the order it stood in. */
  lemma {:induction false} SelectInOrder(front: seq<Row>, back: seq<Row>, keep: Row -> bool)
    ensures Select(front + back, keep) == Select(front, keep) + Select(back, keep)
    decreases |back|
  {
    if back == [] {
      assert front + back == front;
    } else {
      var init, last := back[..|back| - 1], back[|back| - 1];
      assert (front + back)[..|front + back| - 1] == front + init;
      SelectInOrder(front, init, keep);
    }
  }

  ghost predicate Offered(w: World, selects: Row -> bool, row: Row) {
    selects(row) && InPool(w, row) && w.Verdict(row).ServeWork?
  }

  /** The pool hands over the highest-ranked row it holds that the filter selects and this
      checkout may begin. */
  lemma PoolPickIsHighest(w: World, selects: Row -> bool) returns (k: nat)
    ensures w.FromPool(selects).Some? ==>
      k < |w.rows| && w.rows[k] == w.FromPool(selects).value.row && Offered(w, selects, w.rows[k])
    ensures forall j :: 0 <= j < (if w.FromPool(selects).Some? then k else |w.rows|) && j < |w.rows| ==>
      !Offered(w, selects, w.rows[j])
  {
    k := FirstOffered(w, w.rows, selects);
  }

  lemma {:induction false} FirstOffered(w: World, rows: seq<Row>, selects: Row -> bool) returns (k: nat)
    ensures var pick := w.PickFrom(Select(rows, w.InFocus()), selects, AnyLane(), {ServeWork});
      && (pick.Some? ==> k < |rows| && rows[k] == pick.value && Offered(w, selects, rows[k]))
      && (forall j :: 0 <= j < (if pick.Some? then k else |rows|) && j < |rows| ==> !Offered(w, selects, rows[j]))
    decreases |rows|
  {
    k := 0;
    if rows != [] {
      assert rows == [rows[0]] + rows[1..];
      SelectInOrder([rows[0]], rows[1..], w.InFocus());
      SelectOne(rows[0], w.InFocus());
      OfferedFirst(w, rows[0], Select(rows[1..], w.InFocus()), selects);
      if !Offered(w, selects, rows[0]) {
        k := FirstOffered(w, rows[1..], selects);
        k := k + 1;
      }
    }
  }

  lemma SelectOne(row: Row, keep: Row -> bool)
    ensures Select([row], keep) == if keep(row) then [row] else []
  {
    assert [row][..0] == [];
  }

  lemma OfferedFirst(w: World, row: Row, rest: seq<Row>, selects: Row -> bool)
    ensures var pick := w.PickFrom(
        (if w.InFocus()(row) then [row] else []) + rest, selects, AnyLane(), {ServeWork});
      pick == if Offered(w, selects, row) then Some(row) else w.PickFrom(rest, selects, AnyLane(), {ServeWork})
  {
    ScopeIs(w.standings, w.self, w.LaneOfRow(row));
    assert ([row] + rest)[1..] == rest && [] + rest == rest;
  }

  // ---- What the two walks gate ----

  /** An open row of ours leads, through open rows alone, to one that says id comes first. */
  ghost predicate WaitsFor(w: World, q: Queue, ours: Row -> bool, id: ID) {
    exists rows, via :: OpenChain(q, rows, via, id) && rows[0] in w.rows && ours(rows[0])
  }

  lemma WalkGates(w: World, inScope: LaneID -> bool, ours: Row -> bool, id: ID)
    requires forall row: Row :: ours(row) <==> inScope(w.LaneOfRow(row))
    ensures var q := w.QueueOf(inScope);
      (exists dep :: dep in q.Gating() && dep.id == id) <==> !q.Inside(id) && WaitsFor(w, q, ours, id)
  {
    var q := w.QueueOf(inScope);
    if dep :| dep in q.Gating() && dep.id == id {
      var r, rows := CollectsThroughOpenRows(q, dep);
      assert rows[0] in w.rows && ours(rows[0]);
    }
    if !q.Inside(id) && WaitsFor(w, q, ours, id) {
      var rows, via :| OpenChain(q, rows, via, id) && rows[0] in w.rows && ours(rows[0]);
      OpenRowsCollect(q, rows, via, id);
    }
  }

  ghost function OfOurLanes(w: World): Row -> bool {
    (row: Row) => HeldBySelf(w.standings, w.self, w.LaneOfRow(row))
  }

  ghost function OfOurScope(w: World): Row -> bool {
    (row: Row) => InOwnScope(w.standings, w.self, w.LaneOfRow(row))
  }

  /** The first walk collects what our own lanes wait for and are not themselves, the second
      what our whole scope does. */
  lemma WalksGateOurs(w: World, id: ID)
    ensures var q := w.QueueOf(w.OwnHolds());
      (exists dep :: dep in w.GatingMine() && dep.id == id) <==> !q.Inside(id) && WaitsFor(w, q, OfOurLanes(w), id)
    ensures var q := w.QueueOf(w.OwnCovers());
      (exists dep :: dep in w.GatingEpic() && dep.id == id) <==> !q.Inside(id) && WaitsFor(w, q, OfOurScope(w), id)
  {
    forall row: Row ensures OfOurLanes(w)(row) <==> w.OwnHolds()(w.LaneOfRow(row)) {
      ScopeIs(w.standings, w.self, w.LaneOfRow(row));
    }
    forall row: Row ensures OfOurScope(w)(row) <==> w.OwnCovers()(w.LaneOfRow(row)) {
      ScopeIs(w.standings, w.self, w.LaneOfRow(row));
    }
    WalkGates(w, w.OwnHolds(), OfOurLanes(w), id);
    WalkGates(w, w.OwnCovers(), OfOurScope(w), id);
  }

  lemma WalkGatesRow(w: World, inScope: LaneID -> bool, dep: GatedDep) returns (row: Row)
    requires dep in w.QueueOf(inScope).Gating()
    ensures row in w.rows && row.Id() == dep.gates && row.issue.state == Open && inScope(w.LaneOfRow(row))
  {
    var q := w.QueueOf(inScope);
    var r, rows := CollectsThroughOpenRows(q, dep);
    FirstIsOpen(q, rows, dep.via, dep.id);
    row := q.rows[r];
  }

  /** A dependency handed over unblocks an open row of a lane we hold, or, the work being
      outside our whole scope, an open row of our scope. */
  lemma DependencyServesOurs(w: World, selects: Row -> bool) returns (gated: Row)
    requires w.RouteNext(selects).ServedFromDependency?
    ensures gated in w.rows && gated.Id() == w.RouteNext(selects).gates && gated.issue.state == Open
    ensures HeldBySelf(w.standings, w.self, w.LaneOfRow(gated)) ||
      (InOwnScope(w.standings, w.self, w.LaneOfRow(gated)) &&
       !InOwnScope(w.standings, w.self, w.RouteNext(selects).lane))
  {
    PicksSitWhereTheySay(w, selects);
    var outcome := w.RouteNext(selects);
    var dep: GatedDep :| dep.id == outcome.blocker && dep.gates == outcome.gates && dep.via == outcome.via &&
      (dep in w.GatingMine() || (dep in w.GatingEpic() && !w.Own().Covers(outcome.lane)));
    ScopeIs(w.standings, w.self, outcome.lane);
    if dep in w.GatingMine() {
      gated := WalkGatesRow(w, w.OwnHolds(), dep);
    } else {
      gated := WalkGatesRow(w, w.OwnCovers(), dep);
    }
    ScopeIs(w.standings, w.self, w.LaneOfRow(gated));
  }

  // ---- Diagnostics ----

  predicate Says(row: Row, kinds: set<Kind>) { exists a :: a in row.annotations && a.kind in kinds }

  /** A row is reported as held exactly when our scope covers it and an outside event holds
      it, or a missing field or its own design does while it has not begun and no one else
      holds its lane. */
  lemma HeldHereIs(w: World, row: Row)
    ensures w.HeldHere(row) <==>
      InOwnScope(w.standings, w.self, w.LaneOfRow(row)) &&
      (Says(row, {External}) ||
       (Says(row, {MissingField, NeedsDesign}) && row.issue.state != InProgress &&
        HoldGate.RelationOf(w.StandingFor(row), w.self) != HoldGate.LaneHeldForeign))
  {
    ScopeIs(w.standings, w.self, w.LaneOfRow(row));
    HeldByItselfIs(row.annotations);
    OwnReasons(row);
    CapacityIs(row, w.StandingFor(row), w.self);
    if w.Verdict(row) == RouteAround {
      ReachIs(row, w.StandingFor(row), w.self);
    }
    ReadyOncePrerequisitesFinish(row.Readiness());
  }

  lemma OwnReasons(row: Row)
    ensures Says(row, {External}) <==> exists a :: a in row.annotations && a.kind.External?
    ensures Says(row, {MissingField, NeedsDesign}) || Says(row, {External}) <==>
      exists a :: a in row.annotations && a.kind in {MissingField, NeedsDesign, External}
  {
  }

  /** A blocker can be cleared exactly when none of the work toward it awaits an outside
      event, and none of it that is open needs another ticket first. */
  lemma ClearableIs(w: World, deps: seq<GatedDep>, i: nat)
    requires i < |deps|
    ensures |w.BlockersOf(deps)| == |deps|
    ensures w.BlockersOf(deps)[i].id == deps[i].id && w.BlockersOf(deps)[i].best == deps[i].best
    ensures w.BlockersOf(deps)[i].clearable <==>
      forall work :: work in w.WorkOn(deps[i].id) ==>
        !Says(work, {External}) &&
        !(work.issue.state == Open && Says(work, {OpenDependency, InheritedDependency, EarlierSiblingPending}))
  {
    forall work: Row ensures w.WaitsElsewhere(work) <==>
      Says(work, {External}) ||
      (work.issue.state == Open && Says(work, {OpenDependency, InheritedDependency, EarlierSiblingPending}))
    {
      WaitsElsewhereIs(w, work);
    }
  }

  lemma WaitsElsewhereIs(w: World, work: Row)
    ensures w.WaitsElsewhere(work) <==>
      Says(work, {External}) ||
      (work.issue.state == Open && Says(work, {OpenDependency, InheritedDependency, EarlierSiblingPending}))
  {
    HeldByItselfIs(work.annotations);
    OwnReasons(work);
    if work.Prerequisites() != [] {
      var first := work.Prerequisites()[0];
      work.PrerequisitesAre(first);
      assert Annotation(first.kind, first.detail) in work.annotations;
    }
    if a :| a in work.annotations && a.kind in {OpenDependency, InheritedDependency, EarlierSiblingPending} {
      work.PrerequisitesAre(BlockingReason(a.kind, a.message));
    }
  }

  /** A row stands in for itself under its own id; a ticket that stands in for something
      above it is given with it. */
  lemma NameIs(entry: RowReach)
    ensures entry.Name() == entry.id <==> entry.row.Id() == "" || entry.row.Id() == entry.id
    ensures entry.Name() != entry.id ==>
      entry.row.Id() <= entry.Name() && entry.Name()[|entry.Name()| - |entry.id|..] == entry.id
  {
    assert |entry.row.Id() + " under " + entry.id| == |entry.row.Id()| + 7 + |entry.id|;
  }

  lemma ReportedByItsId(w: World, rows: seq<Row>, i: nat)
    requires i < |rows|
    ensures w.ReachesOf(rows)[i].Name() == rows[i].Id() && w.ReachesOf(rows)[i].kind == w.ReachFor(rows[i])
  {
  }

  /** What is said to be off the focus path is, in rank order, the selected rows the pool
      does not hold, by their ids. */
  lemma OffPathIs(w: World, selects: Row -> bool, i: nat)
    requires i < |Select(w.Withheld(), selects)|
    ensures |w.OffPath(selects)| == |Select(w.Withheld(), selects)|
    ensures w.OffPath(selects)[i] == Select(w.Withheld(), selects)[i].Id()
    ensures var row := Select(w.Withheld(), selects)[i]; row in w.rows && selects(row) && !InPool(w, row)
  {
    var row := Select(w.Withheld(), selects)[i];
    assert row in Select(w.Withheld(), selects);
    SelectIs(w.Withheld(), selects, row);
    PoolIs(w, row);
  }

  // ---- What an exhaustion says ----

  /** The tickets of the read in our scope, or in our own lanes alone, still in the flow. */
  ghost function OwnTickets(w: World, lanes: LaneID -> bool): set<nat> {
    set i: nat | i < |w.read.issues| && lanes(w.read.LaneFor(w.read.issues[i])) && !w.read.issues[i].frozen
  }

  ghost function OwnClosed(w: World, lanes: LaneID -> bool): set<nat> {
    set i | i in OwnTickets(w, lanes) && w.read.issues[i].state == Closed
  }

  ghost function Scoped(w: World): LaneID -> bool { lane => InOwnScope(w.standings, w.self, lane) }

  function Ours(w: World): LaneID -> bool { lane => HeldBySelf(w.standings, w.self, lane) }

  lemma OwnProgressIs(w: World)
    ensures w.Exhaustion().progress == Evidence.Progress(|OwnClosed(w, Scoped(w))|, |OwnTickets(w, Scoped(w))|)
    ensures w.Exhaustion().ownProgress == Evidence.Progress(|OwnClosed(w, Ours(w))|, |OwnTickets(w, Ours(w))|)
  {
    CountsAlike(w, w.OwnCovers(), Scoped(w));
    CountsAlike(w, w.OwnHolds(), Ours(w));
  }

  lemma CountsAlike(w: World, inScope: LaneID -> bool, lanes: LaneID -> bool)
    requires (inScope == w.OwnCovers() && lanes == Scoped(w)) || (inScope == w.OwnHolds() && lanes == Ours(w))
    ensures w.Progress(inScope) == Evidence.Progress(|OwnClosed(w, lanes)|, |OwnTickets(w, lanes)|)
  {
    forall lane ensures inScope(lane) <==> lanes(lane) {
      ScopeIs(w.standings, w.self, lane);
    }
    Evidence.ScopeCounts(w.read, w.read.issues, inScope);
    assert OwnTickets(w, lanes) == Evidence.InFlow(w.read, w.read.issues, inScope);
    assert OwnClosed(w, lanes) == Evidence.Finished(w.read, w.read.issues, inScope);
  }

  /** The scope a narrowing shows, if the outcome is one. */
  function NarrowingScope(outcome: NextOutcome): Option<FocusScope> {
    match outcome
    case OnlyNarrowed(narrowed) => Some(narrowed.scope)
    case ServedPastNarrowing(_, narrowing) => Some(narrowing.scope)
    case _ => None
  }

  /** What the filter hid of our own work is shown with no scope, and what it hid of the
      pool with the pool's. */
  lemma NarrowedSays(w: World, selects: Row -> bool)
    ensures NarrowingScope(w.RouteNext(selects)).Some? ==>
      NarrowingScope(w.RouteNext(selects)).value ==
        if w.Own().lanes == {} then w.Scope() else FocusScope([], OwnWork({}, {}))
  {
    PoolPickSits(w, AnyRow());
    if w.Own().lanes == {} {
      Step4Shows(w.FromPool(selects), w.FromPool(AnyRow()), w.PassedOver(selects), w.OffPath(selects));
    } else if w.OwnSteps(selects).Some? {
      OwnStepsAreSteps(w, selects);
    } else {
      Step3Shows(w.OwnSteps(AnyRow()), w.FromPool(selects), w.FromPool(AnyRow()), w.Exhaustion(), w.OffPath(selects));
    }
  }

  lemma Step4Shows(
    pick: Option<PoolPick>, hidden: Option<PoolPick>, unreachable: seq<RowReach>, offPath: seq<ID>)
    ensures var shown := NarrowingScope(Step4(pick, hidden, unreachable, offPath));
      shown.Some? ==> hidden.Some? && shown.value == hidden.value.scope
  {
  }

  lemma Step3Shows(
    whole: Option<(NextOutcome, Row)>, pick: Option<PoolPick>, hidden: Option<PoolPick>, exhausted: Exhausted,
    offPath: seq<ID>)
    ensures var shown := NarrowingScope(Step3(whole, pick, hidden, exhausted, offPath));
      shown.Some? ==> shown.value == FocusScope([], OwnWork({}, {}))
  {
  }

  /** An exhaustion says how far our whole scope has come and how far our own lanes have,
      of which epics; and what stops it. With no focus to blame it names the selected rows
      the focus kept out, unless the filter hid one the pool had. */
  lemma ExhaustionSays(w: World, selects: Row -> bool)
    requires SaidBy(w.RouteNext(selects)).Some?
    ensures var said := SaidBy(w.RouteNext(selects)).value;
      && said.epics == w.Own().epics
      && said.progress == Evidence.Progress(|OwnClosed(w, Scoped(w))|, |OwnTickets(w, Scoped(w))|)
      && said.ownProgress == Evidence.Progress(|OwnClosed(w, Ours(w))|, |OwnTickets(w, Ours(w))|)
      && said.blocked == w.BlockersOf(w.GatingEpic())
      && (said.narrowing.Some? ==> w.RouteNext(selects).OnlyExhausted?)
      && (said.offPath != [] ==> w.RouteNext(selects).OnlyExhausted? && said.narrowing.None?)
    ensures w.RouteNext(selects).OnlyExhausted? ==>
      var said := SaidBy(w.RouteNext(selects)).value;
      if w.FromPool(AnyRow()).Some? then
        said.narrowing == Some(Narrowed(w.FromPool(AnyRow()).value.row, w.Scope())) && said.offPath == []
      else said.narrowing.None? && said.offPath == w.OffPath(selects)
  {
    OwnProgressIs(w);
    SaidPastOwn(w, selects);
    PoolPickSits(w, AnyRow());
    Step3Exhausts(w.OwnSteps(AnyRow()), w.FromPool(selects), w.FromPool(AnyRow()), w.Exhaustion(), w.OffPath(selects));
  }

  lemma Step3Exhausts(
    whole: Option<(NextOutcome, Row)>, pick: Option<PoolPick>, hidden: Option<PoolPick>, exhausted: Exhausted,
    offPath: seq<ID>)
    requires exhausted.offPath == [] && exhausted.narrowing.None?
    ensures var outcome := Step3(whole, pick, hidden, exhausted, offPath);
      && (outcome.ServedPastExhaustion? ==> outcome.exhaustion == exhausted)
      && (outcome.OnlyExhausted? ==>
        outcome.exhausted == exhausted.(
          narrowing := if hidden.Some? then Some(Narrowed(hidden.value.row, hidden.value.scope)) else None,
          offPath := if hidden.Some? then [] else offPath))
  {
  }
}
