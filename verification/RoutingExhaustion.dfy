// What an exhausted scope has left when nothing is named as stopping it.
module RoutingExhaustion {
  import opened Model
  import opened Readiness
  import opened Gating
  import opened Routing
  import opened RoutingLaws
  import Events
  import Standing
  import Evidence
  import StandingLaws
  import HoldGate
  import HoldGateLaws
  import GatingCorrect

  /** What an exhaustion says, alone or beside the pool's pick. */
  function SaidBy(outcome: NextOutcome): Option<Exhausted> {
    match outcome
    case OnlyExhausted(exhausted) => Some(exhausted)
    case ServedPastExhaustion(_, exhausted) => Some(exhausted)
    case _ => None
  }

  /** An exhaustion that names no blocker and no row held by itself. */
  ghost predicate Unstopped(w: World, selects: Row -> bool) {
    var said := SaidBy(w.RouteNext(selects));
    said.Some? && said.value.blocked == [] && said.value.held == []
  }

  lemma SaysTheScopes(w: World, selects: Row -> bool)
    requires SaidBy(w.RouteNext(selects)).Some?
    ensures var said := SaidBy(w.RouteNext(selects)).value;
      said.blocked == w.Exhaustion().blocked && said.held == w.Exhaustion().held
  {
    SaidPastOwn(w, selects);
    Step3Says(w.OwnSteps(AnyRow()), w.FromPool(selects), w.FromPool(AnyRow()), w.Exhaustion(), w.OffPath(selects));
  }

  lemma SaidPastOwn(w: World, selects: Row -> bool)
    requires SaidBy(w.RouteNext(selects)).Some?
    ensures w.RouteNext(selects) == w.PastOwn(selects)
  {
    if w.Own().lanes == {} {
      Step4Serves(w.FromPool(selects), w.FromPool(AnyRow()), w.PassedOver(selects), w.OffPath(selects));
    } else if w.OwnSteps(selects).Some? {
      OwnStepsAreSteps(w, selects);
    }
  }

  lemma Step3Says(
    whole: Option<(NextOutcome, Row)>, pick: Option<PoolPick>, hidden: Option<PoolPick>, exhausted: Exhausted,
    offPath: seq<ID>)
    ensures var said := SaidBy(Step3(whole, pick, hidden, exhausted, offPath));
      said.Some? ==> said.value.blocked == exhausted.blocked && said.value.held == exhausted.held
  {
  }

  /** No blocker is named exactly when everything the scope waits on, at any depth, is
      inside it. */
  lemma NoBlockerMeansInside(w: World)
    ensures var q := w.QueueOf(w.OwnCovers());
      w.Exhaustion().blocked == [] <==> forall id :: q.Reached(|q.rows|, id) ==> q.Inside(id)
  {
    var q := w.QueueOf(w.OwnCovers());
    assert |w.BlockersOf(w.GatingEpic())| == |q.Gating()|;
    if q.Gating() != [] {
      GatingCorrect.CollectsExactlyTheGates(q, q.Gating()[0].id);
    }
    forall id | q.Reached(|q.rows|, id) && q.Gating() == [] ensures q.Inside(id) {
      GatingCorrect.CollectsExactlyTheGates(q, id);
    }
  }

  /** No row is named as held exactly when none in scope is held by itself. */
  lemma NoneHeldByItself(w: World)
    ensures w.Exhaustion().held == [] <==> forall row :: row in w.rows ==> !w.HeldHere(row)
  {
    var held := Select(w.rows, (row: Row) => w.HeldHere(row));
    assert |w.ReachesOf(held)| == |held|;
    forall row ensures row in held <==> row in w.rows && w.HeldHere(row) {
      SelectIs(w.rows, (row: Row) => w.HeldHere(row), row);
    }
    if held != [] {
      assert held[0] in held;
    }
  }

  lemma DirectlyReached(w: World, row: Row, id: ID)
    requires row in w.rows && w.Own().Covers(w.LaneOfRow(row))
    requires var q := w.QueueOf(w.OwnCovers()); id in q.WaitsOn(row)
    ensures var q := w.QueueOf(w.OwnCovers()); q.Reached(|q.rows|, id)
  {
    var q := w.QueueOf(w.OwnCovers());
    assert q.Leads(row, [], row);
    assert q.Chain(row, [], id);
    var r :| 0 <= r < |w.rows| && w.rows[r] == row;
    assert q.Scoped(q.rows[r]) && q.Reaches(q.rows[r], id);
  }

  /** When nothing is named, each row of the scope sits in a lane another holder holds,
      begun or not, or has not begun and waits only on tickets inside the scope. */
  lemma UnstoppedRemains(w: World, selects: Row -> bool, row: Row)
    requires Unstopped(w, selects) && row in w.rows && w.Own().Covers(w.LaneOfRow(row))
    ensures w.ReachFor(row) == HeldFresh || (w.ReachFor(row) == NotReady && row.issue.state != InProgress)
    ensures w.ReachFor(row) == NotReady ==> row.Prerequisites() != []
    ensures var q := w.QueueOf(w.OwnCovers()); forall id :: id in q.WaitsOn(row) ==> q.Inside(id)
  {
    SaysTheScopes(w, selects);
    NoneHeldByItself(w);
    ExhaustionIsTrue(w, selects, "", row);
    TakeableIsCapacity(w, row);
    ReachIs(row, w.StandingFor(row), w.self);
    CapacityIs(row, w.StandingFor(row), w.self);
    ReadyOncePrerequisitesFinish(row.Readiness());
    NoBlockerMeansInside(w);
    var q := w.QueueOf(w.OwnCovers());
    forall id | id in q.WaitsOn(row) ensures q.Inside(id) {
      DirectlyReached(w, row, id);
    }
  }

  // ---- Nothing need be in progress ----

  lemma {:induction false} LeadsNowhere(q: Queue, start: Row, via: seq<Hop>, row: Row)
    requires q.WaitsOn(start) == [] && q.Leads(start, via, row)
    ensures via == [] && row == start
    decreases |via|
  {
    if via != [] {
      var init, last := via[..|via| - 1], via[|via| - 1];
      var mid :| q.Leads(start, init, mid) && last.prerequisite in q.WaitsOn(mid) && q.Continues(last, row);
      LeadsNowhere(q, start, init, mid);
    }
  }

  lemma NothingGatesIt(q: Queue)
    requires forall row :: row in q.rows ==> q.WaitsOn(row) == []
    ensures q.Gating() == []
  {
    if q.Gating() != [] {
      var id := q.Gating()[0].id;
      GatingCorrect.CollectsExactlyTheGates(q, id);
      var r :| 0 <= r < |q.rows| && q.Scoped(q.rows[r]) && q.Reaches(q.rows[r], id);
      var via :| q.Chain(q.rows[r], via, id);
      var row :| q.Leads(q.rows[r], via, row) && id in q.WaitsOn(row);
      LeadsNowhere(q, q.rows[r], via, row);
    }
  }

  /** A queue that is all held elsewhere and waits on nothing exhausts the scope, with
      nothing named as stopping it. */
  lemma AllHeldElsewhere(w: World, selects: Row -> bool)
    requires w.Own().lanes != {}
    requires forall row :: row in w.rows ==> w.ReachFor(row) == HeldFresh && row.Prerequisites() == []
    ensures w.RouteNext(selects).OnlyExhausted? && Unstopped(w, selects)
  {
    NothingGatesIt(w.QueueOf(w.OwnHolds()));
    NothingGatesIt(w.QueueOf(w.OwnCovers()));
    NoneServed(w, selects);
    NoneServed(w, AnyRow());
    NoneHeldByItself(w);
    SaysTheScopes(w, selects);
  }

  lemma NoneServed(w: World, serves: Row -> bool)
    requires forall row :: row in w.rows ==> w.ReachFor(row) == HeldFresh
    requires w.GatingMine() == [] && w.GatingEpic() == []
    ensures w.OwnSteps(serves).None? && w.FromPool(serves).None?
  {
    forall row ensures !Servable(w, serves, row) {
      if row in w.rows {
        TakeableIsCapacity(w, row);
      }
    }
    Step1Sits(w, serves);
    Step2Sits(w, serves);
    PoolPickSits(w, serves);
  }

  /** One open ticket of epic E, in the second of two lanes: the first is self's, the
      second held as theirs says. */
  function TwoLanes(self: Events.Holder, theirs: Standing.Standing, next: Issue): World {
    World([Row(next, [])], map[next.id := Relations(next.id, Some(Parent("E", Epic)))], map[],
          map[LaneID("E", "one", false) := Standing.Held(Standing.Tenure(self, 1, 1), []),
            LaneID("E", "two", false) := theirs],
          Evidence.Read([], map[], map[], []), self, [])
  }

  lemma TwoLanesUnstopped(self: Events.Holder, theirs: Standing.Standing, next: Issue, selects: Row -> bool)
    requires Events.Present(self.checkout) && next.lane == "two" && theirs.Held? && theirs.tenure.holder != self
    ensures var w := TwoLanes(self, theirs, next); var waiting := Row(next, []);
      w.RouteNext(selects).OnlyExhausted? && Unstopped(w, selects) && w.Own().Covers(w.LaneOfRow(waiting)) &&
      w.StandingFor(waiting) == theirs
  {
    var w, waiting := TwoLanes(self, theirs, next), Row(next, []);
    var mine, lane := LaneID("E", "one", false), LaneID("E", "two", false);
    assert mine.key[0] != lane.key[0] && w.LaneOfRow(waiting) == lane;
    OwnedLane(w, mine);
    HeldByAnother(w, waiting);
    AllHeldElsewhere(w, selects);
  }

  /** The failing case: an unstarted ticket of our epic, in a lane another checkout took
      by finishing the ticket before it. The exhaustion names nothing as stopping the
      scope, and nothing in it is in progress. */
  lemma UnstoppedWithNothingUnderway(
    self: Events.Holder, finished: Issue, next: Issue, done: Events.Event, freshness: Standing.Freshness)
    requires Events.Present(self.checkout) && Events.HolderOf(done) != self
    requires done.action == Events.DONE && done.issueID == finished.id && freshness.Covers(done.createdAt)
    requires finished.state == Closed && next.state == Open && !next.frozen && finished.lane == next.lane == "two"
    ensures var theirs := Standing.Held(Standing.Tenure(Events.HolderOf(done), done.createdAt, done.createdAt), []);
      var w, waiting := TwoLanes(self, theirs, next), Row(next, []);
      w.rows == [waiting] && w.Own().Covers(w.LaneOfRow(waiting)) &&
      Standing.Answers(w.StandingFor(waiting), [finished, next], [done], freshness, Events.NOTHING_ENUMERATED) &&
      forall selects: Row -> bool :: w.RouteNext(selects).OnlyExhausted? && Unstopped(w, selects)
  {
    assert next in [finished, next] && next.InPlay();
    OneDoneHolds([finished, next], done, freshness);
    TwoLanesAlwaysUnstopped(self,
      Standing.Held(Standing.Tenure(Events.HolderOf(done), done.createdAt, done.createdAt), []), next);
  }

  lemma TwoLanesAlwaysUnstopped(self: Events.Holder, theirs: Standing.Standing, next: Issue)
    requires Events.Present(self.checkout) && next.lane == "two" && theirs.Held? && theirs.tenure.holder != self
    ensures var w := TwoLanes(self, theirs, next); var waiting := Row(next, []);
      w.rows == [waiting] && w.Own().Covers(w.LaneOfRow(waiting)) && w.StandingFor(waiting) == theirs &&
      forall selects: Row -> bool :: w.RouteNext(selects).OnlyExhausted? && Unstopped(w, selects)
  {
    TwoLanesUnstopped(self, theirs, next, AnyRow());
    forall selects: Row -> bool
      ensures var w := TwoLanes(self, theirs, next); w.RouteNext(selects).OnlyExhausted? && Unstopped(w, selects)
    {
      TwoLanesUnstopped(self, theirs, next, selects);
    }
  }

  lemma OwnedLane(w: World, lane: LaneID)
    requires lane in w.standings && w.standings[lane].Held? && w.standings[lane].tenure.holder == w.self
    requires Events.Present(w.self.checkout) && lane.epic != ""
    ensures lane in w.Own().lanes && lane.epic in w.Own().epics
  {
  }

  lemma HeldByAnother(w: World, row: Row)
    requires w.StandingFor(row).Held? && w.StandingFor(row).tenure.holder != w.self && row.annotations == []
    ensures w.ReachFor(row) == HeldFresh && row.Prerequisites() == []
  {
  }

  lemma OneDoneHolds(members: seq<Issue>, done: Events.Event, freshness: Standing.Freshness)
    requires Standing.Unfinished(members) && Events.Establishes(done.action) && freshness.Covers(done.createdAt)
    ensures var holder := Events.HolderOf(done);
      Standing.Answers(Standing.Held(Standing.Tenure(holder, done.createdAt, done.createdAt), []),
        members, [done], freshness, Events.NOTHING_ENUMERATED)
  {
    StandingLaws.NothingVoid([done]);
    HoldGateLaws.TenureOfOne(done, HoldGate.CheckoutFacts(freshness, Events.NOTHING_ENUMERATED));
    NoRivals(done, freshness);
    assert multiset(Standing.Rivals(Events.HolderOf(done), [done], freshness)) == multiset([]);
  }

  lemma NoRivals(done: Events.Event, freshness: Standing.Freshness)
    ensures Standing.Rivals(Events.HolderOf(done), [done], freshness) == {}
  {
  }
}
