// What the dependency walk collects, said over the rows' own states and annotations:
// only open rows are walked, and no earlier lane-mate of the scope is ever collected.
module GatingOpen {
  import opened Model
  import opened Readiness
  import opened Gating
  import opened GatingCorrect

  // ---- Which rows a chain passes through ----

  lemma WaitsOnIs(q: Queue, row: Row, id: ID)
    ensures id in q.WaitsOn(row) <==> row.issue.state == Open && row.Needs(id)
  {
    var reasons := row.Prerequisites();
    row.NeedsAre(id);
    if row.issue.state == Open {
      if id in q.WaitsOn(row) {
        var i :| 0 <= i < |reasons| && q.WaitsOn(row)[i] == id;
        assert reasons[i] in reasons;
      }
      if reason :| reason in reasons && reason.Ticket() == id {
        var i :| 0 <= i < |reasons| && reasons[i] == reason;
        assert q.WaitsOn(row)[i] == id;
      }
    }
  }

  /** Every row but the last is open and says that the hop's prerequisite comes first;
      that is outside the scope, and the next row is the work toward it the hop names. */
  ghost predicate Passes(q: Queue, rows: seq<Row>, via: seq<Hop>) {
    && |rows| == |via| + 1
    && (forall k :: 0 <= k < |via| ==> PassesAt(q, rows[k], via[k], rows[k + 1]))
  }

  ghost predicate PassesAt(q: Queue, row: Row, hop: Hop, next: Row) {
    && row.issue.state == Open && row.Needs(hop.prerequisite)
    && !q.Inside(hop.prerequisite) && next in q.Work(hop.prerequisite) && next.Id() == hop.through
  }

  /** The rows lead from the first through open rows alone to one, open too, that says
      id comes first. */
  ghost predicate OpenChain(q: Queue, rows: seq<Row>, via: seq<Hop>, id: ID) {
    Passes(q, rows, via) && rows[|via|].issue.state == Open && rows[|via|].Needs(id)
  }

  lemma {:induction false} LeadsPasses(q: Queue, start: Row, via: seq<Hop>, row: Row) returns (rows: seq<Row>)
    requires q.Leads(start, via, row)
    ensures Passes(q, rows, via) && rows[0] == start && rows[|via|] == row
    decreases |via|
  {
    rows := [start];
    if via != [] {
      var init, last := via[..|via| - 1], via[|via| - 1];
      var mid :| q.Leads(start, init, mid) && last.prerequisite in q.WaitsOn(mid) && q.Continues(last, row);
      var before := LeadsPasses(q, start, init, mid);
      HopPasses(q, mid, last, row);
      rows := before + [row];
      PassesOn(q, before, init, last, row, via);
    }
  }

  lemma HopPasses(q: Queue, mid: Row, hop: Hop, row: Row)
    requires hop.prerequisite in q.WaitsOn(mid) && q.Continues(hop, row)
    ensures PassesAt(q, mid, hop, row)
  {
    WaitsOnIs(q, mid, hop.prerequisite);
  }

  lemma PassesOn(q: Queue, rows: seq<Row>, via: seq<Hop>, hop: Hop, next: Row, longer: seq<Hop>)
    requires Passes(q, rows, via) && PassesAt(q, rows[|via|], hop, next)
    requires |longer| == |via| + 1 && longer[..|via|] == via && longer[|via|] == hop
    ensures Passes(q, rows + [next], longer)
  {
    forall k | 0 <= k < |longer| ensures PassesAt(q, (rows + [next])[k], longer[k], (rows + [next])[k + 1]) {
      assert k < |via| ==> longer[k] == via[k];
    }
  }

  lemma {:induction false} PassesLeads(q: Queue, rows: seq<Row>, via: seq<Hop>, k: nat)
    requires Passes(q, rows, via) && k <= |via|
    ensures q.Leads(rows[0], via[..k], rows[k])
    decreases k
  {
    if k > 0 {
      PassesLeads(q, rows, via, k - 1);
      PassesOneMore(q, rows, via, k - 1, rows[0]);
    }
  }

  lemma PassesOneMore(q: Queue, rows: seq<Row>, via: seq<Hop>, k: nat, start: Row)
    requires Passes(q, rows, via) && k < |via| && q.Leads(start, via[..k], rows[k])
    ensures q.Leads(start, via[..k + 1], rows[k + 1])
  {
    HopAt(q, rows, via, k);
    LeadsBy(q, start, via[..k], rows[k], via[k], rows[k + 1], via[..k + 1]);
  }

  lemma HopAt(q: Queue, rows: seq<Row>, via: seq<Hop>, k: nat)
    requires Passes(q, rows, via) && k < |via|
    ensures via[k].prerequisite in q.WaitsOn(rows[k]) && q.Continues(via[k], rows[k + 1])
    ensures via[..k + 1] == via[..k] + [via[k]]
  {
    assert PassesAt(q, rows[k], via[k], rows[k + 1]);
    PassesHop(q, rows[k], via[k], rows[k + 1]);
  }

  lemma LeadsBy(q: Queue, start: Row, init: seq<Hop>, mid: Row, hop: Hop, row: Row, via: seq<Hop>)
    requires q.Leads(start, init, mid) && hop.prerequisite in q.WaitsOn(mid) && q.Continues(hop, row)
    requires via == init + [hop]
    ensures q.Leads(start, via, row)
  {
    LeadsOn(q, start, init, mid, hop, row);
  }

  lemma PassesHop(q: Queue, row: Row, hop: Hop, next: Row)
    requires PassesAt(q, row, hop, next)
    ensures hop.prerequisite in q.WaitsOn(row) && q.Continues(hop, next)
  {
    WaitsOnIs(q, row, hop.prerequisite);
  }

  /** A chain passes through open rows alone, and any such rows are a chain. */
  lemma ChainIsOpen(q: Queue, start: Row, via: seq<Hop>, id: ID)
    ensures q.Chain(start, via, id) <==> exists rows :: OpenChain(q, rows, via, id) && rows[0] == start
  {
    if q.Chain(start, via, id) {
      var row :| q.Leads(start, via, row) && id in q.WaitsOn(row);
      WaitsOnIs(q, row, id);
      var rows := LeadsPasses(q, start, via, row);
      assert OpenChain(q, rows, via, id);
    }
    if rows :| OpenChain(q, rows, via, id) && rows[0] == start {
      PassesLeads(q, rows, via, |via|);
      assert via[..|via|] == via;
      WaitsOnIs(q, rows[|via|], id);
    }
  }

  // ---- What is collected ----

  /** A dependency gates a row in scope, and is the ticket of a prerequisite of a row
      that is open, met through rows every one of which is open. */
  lemma CollectsThroughOpenRows(q: Queue, dep: GatedDep) returns (r: nat, rows: seq<Row>)
    requires dep in q.Gating()
    ensures r < |q.rows| && q.Scoped(q.rows[r]) && dep.gates == q.rows[r].Id() && !q.Inside(dep.id)
    ensures OpenChain(q, rows, dep.via, dep.id) && rows[0] == q.rows[r]
  {
    r := CreditsTheFirstByTheShortest(q, dep);
    CollectsExactlyTheGates(q, dep.id);
    ChainIsOpen(q, q.rows[r], dep.via, dep.id);
    rows :| OpenChain(q, rows, dep.via, dep.id) && rows[0] == q.rows[r];
  }

  /** And whatever open rows lead to is collected: first of all what an open row in
      scope itself says comes first. */
  lemma OpenRowsCollect(q: Queue, rows: seq<Row>, via: seq<Hop>, id: ID)
    requires OpenChain(q, rows, via, id) && rows[0] in q.rows && q.Scoped(rows[0]) && !q.Inside(id)
    ensures exists dep :: dep in q.Gating() && dep.id == id
  {
    ChainIsOpen(q, rows[0], via, id);
    var r :| 0 <= r < |q.rows| && q.rows[r] == rows[0];
    assert q.Reaches(q.rows[r], id);
    CollectsExactlyTheGates(q, id);
  }

  lemma DirectlyCollected(q: Queue, row: Row, id: ID)
    requires row in q.rows && q.Scoped(row) && row.issue.state == Open && row.Needs(id) && !q.Inside(id)
    ensures exists dep :: dep in q.Gating() && dep.id == id
  {
    assert Passes(q, [row], []);
    OpenRowsCollect(q, [row], [], id);
  }

  lemma FirstIsOpen(q: Queue, rows: seq<Row>, via: seq<Hop>, id: ID)
    requires OpenChain(q, rows, via, id)
    ensures rows[0].issue.state == Open
  {
    assert via != [] ==> PassesAt(q, rows[0], via[0], rows[1]);
  }

  /** A scope with no open row waits on nothing: what is in flight is past its
      prerequisites. */
  lemma NothingOpenNothingCollected(q: Queue)
    requires forall row :: row in q.rows && q.Scoped(row) ==> row.issue.state != Open
    ensures q.Gating() == []
  {
    if q.Gating() != [] {
      var row := GatedIsOpen(q, q.Gating()[0]);
    }
  }

  lemma GatedIsOpen(q: Queue, dep: GatedDep) returns (row: Row)
    requires dep in q.Gating()
    ensures row in q.rows && q.Scoped(row) && row.issue.state == Open
  {
    var r, rows := CollectsThroughOpenRows(q, dep);
    FirstIsOpen(q, rows, dep.via, dep.id);
    row := q.rows[r];
  }

  // ---- What is inside the scope ----

  /** Row r is the last that says the ticket is an earlier one of its own lane. */
  ghost predicate LastToFollow(q: Queue, r: int, id: ID) {
    0 <= r < |q.rows| && q.rows[r].FollowsInLane(id) &&
    forall other :: r < other < |q.rows| ==> !q.rows[other].FollowsInLane(id)
  }

  lemma FollowsIsBehind(row: Row, id: ID)
    ensures row.FollowsInLane(id) <==> Behind(row.Prerequisites(), id)
  {
    row.NeedsAre(id);
  }

  lemma PlacedIsFollowed(q: Queue, id: ID)
    ensures id in q.Placed(|q.rows|) <==> exists r :: LastToFollow(q, r, id)
    ensures forall r :: LastToFollow(q, r, id) ==>
      id in q.Placed(|q.rows|) && q.Placed(|q.rows|)[id] == q.laneOf(q.rows[r])
  {
    var last := PlacedByItsWaiter(q, |q.rows|, id);
    FollowingIsBehind(q, id);
    forall r ensures LastToFollow(q, r, id) <==> id in q.Placed(|q.rows|) && r == last {
      if id in q.Placed(|q.rows|) {
        assert LastBehind(q, |q.rows|, last, id);
      }
    }
  }

  lemma FollowingIsBehind(q: Queue, id: ID)
    ensures forall r :: LastToFollow(q, r, id) <==> 0 <= r < |q.rows| && LastBehind(q, |q.rows|, r, id)
    ensures NobodyBehind(q, |q.rows|, id) ==> forall r :: !LastToFollow(q, r, id)
  {
    forall row: Row ensures row.FollowsInLane(id) <==> Behind(row.Prerequisites(), id) {
      FollowsIsBehind(row, id);
    }
  }

  lemma OneLastToFollow(q: Queue, r: int, other: int, id: ID)
    requires LastToFollow(q, r, id) && LastToFollow(q, other, id)
    ensures r == other
  {
  }

  /** A reading this checkout can do more about than another. */
  predicate MoreUse(a: ReachKind, b: ReachKind) {
    match b
    case AwaitingOutside => !a.AwaitingOutside?
    case NotReady => a.HeldByItself? || a.HeldFresh? || a.Takeable?
    case HeldByItself => a.HeldFresh? || a.Takeable?
    case HeldFresh => a.Takeable?
    case Takeable => false
  }

  /** The i-th work is read, being of the most use and the first that is. */
  ghost predicate IsRead(q: Queue, work: seq<Row>, i: int) {
    && 0 <= i < |work|
    && (forall j :: 0 <= j < |work| ==> !MoreUse(q.reachFor(work[j]), q.reachFor(work[i])))
    && (forall j :: 0 <= j < i ==> MoreUse(q.reachFor(work[i]), q.reachFor(work[j])))
  }

  /** A dependency is read by the work of the most use, and by the first of that. */
  lemma BestIsRead(q: Queue, work: seq<Row>, i: int)
    ensures IsRead(q, work, i) ==> q.Best(work) == Some(Reading(work[i], q.reachFor(work[i])))
    ensures q.Best(work).Some? <==> exists k :: IsRead(q, work, k)
  {
    var k := BestIsTheFirstOfTheMost(q, work);
    if work != [] {
      assert IsRead(q, work, k);
      if IsRead(q, work, i) {
        OneIsRead(q, work, i, k);
      }
    }
  }

  lemma OneIsRead(q: Queue, work: seq<Row>, i: int, k: int)
    requires IsRead(q, work, i) && IsRead(q, work, k)
    ensures i == k
  {
    ReadBefore(q, work, i, k);
    ReadBefore(q, work, k, i);
  }

  lemma ReadBefore(q: Queue, work: seq<Row>, i: int, k: int)
    requires IsRead(q, work, k) && 0 <= i < |work|
    ensures i < k ==> MoreUse(q.reachFor(work[k]), q.reachFor(work[i]))
  {
  }

  /** A prerequisite is inside the scope exactly when the last row to follow it in its
      lane is in scope, or the work toward it that is read is. */
  lemma InsideIs(q: Queue, id: ID)
    ensures q.Inside(id) <==>
      (exists r :: LastToFollow(q, r, id) && q.Scoped(q.rows[r])) ||
      (exists i :: IsRead(q, q.Work(id), i) && q.Scoped(q.Work(id)[i]))
  {
    var work := q.Work(id);
    PlacedIsFollowed(q, id);
    BestIsRead(q, work, 0);
    if i :| IsRead(q, work, i) {
      BestIsRead(q, work, i);
      forall k | IsRead(q, work, k) ensures k == i {
        OneIsRead(q, work, k, i);
      }
    }
  }

  /** An earlier lane-mate of rows in scope is never collected, though no row of its own
      be to hand: it sits where they do. */
  lemma LaneMatesAreNotCollected(q: Queue, r: int, id: ID)
    requires LastToFollow(q, r, id) && q.Scoped(q.rows[r])
    ensures forall dep :: dep in q.Gating() ==> dep.id != id
  {
    InsideIs(q, id);
    CollectsExactlyTheGates(q, id);
  }
}
