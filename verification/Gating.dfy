// The dependency walk of internal/cli/next_route.go: which open tickets outside
// a scope gate the open rows inside it, at any depth.
module Gating {
  import opened Model
  import opened Readiness

  /** What one row is to this checkout, from least to most it can do. */
  datatype ReachKind = AwaitingOutside | NotReady | HeldByItself | HeldFresh | Takeable
  {
    function Rank(): nat {
      match this
      case AwaitingOutside => 0
      case NotReady => 1
      case HeldByItself => 2
      case HeldFresh => 3
      case Takeable => 4
    }
  }

  datatype Reading = Reading(row: Row, kind: ReachKind)

  /** A step of the walk from a waiting row: through is the work toward the
      prerequisite the step leads on to, which for an epic is a ticket under it. */
  datatype Hop = Hop(prerequisite: ID, through: ID)

  datatype GatedDep = GatedDep(id: ID, best: Option<Reading>, gates: ID, via: seq<Hop>)

  datatype OnPath = OnPath(row: Row, via: seq<Hop>)

  /** What the nested loops grow: the ids met, the rows queued, the dependencies collected. */
  datatype Walk = Walk(seen: set<ID>, chain: seq<OnPath>, deps: seq<GatedDep>)

  function Ids(reasons: seq<BlockingReason>): seq<ID> {
    seq(|reasons|, i requires 0 <= i < |reasons| => reasons[i].Ticket())
  }

  /** The queue one walk reads, and the questions it asks of it. */
  datatype Queue = Queue(
    rows: seq<Row>,
    laneOf: Row -> LaneID,
    inScope: LaneID -> bool,
    reachFor: Row -> ReachKind,
    workToward: map<ID, seq<Row>>)
  {
    predicate Scoped(row: Row) { inScope(laneOf(row)) }

    function Work(id: ID): seq<Row> { if id in workToward then workToward[id] else [] }

    // ---- Which prerequisites are inside the scope ----

    function PlacedBy(placed: map<ID, LaneID>, row: Row, reasons: seq<BlockingReason>): map<ID, LaneID> {
      if reasons == [] then placed
      else
        var before := PlacedBy(placed, row, reasons[..|reasons| - 1]);
        var last := reasons[|reasons| - 1];
        if last.InWaitersLane() then before[last.Ticket() := laneOf(row)] else before
    }

    /** The lane of each earlier lane-mate one of the first n rows waits behind. */
    function Placed(n: nat): map<ID, LaneID>
      requires n <= |rows|
    {
      if n == 0 then map[] else PlacedBy(Placed(n - 1), rows[n - 1], rows[n - 1].Prerequisites())
    }

    /** The best reading among some work, carried by the first row to reach it. */
    function Best(work: seq<Row>): Option<Reading> {
      if work == [] then None
      else
        var before, last := Best(work[..|work| - 1]), work[|work| - 1];
        if before.None? || reachFor(last).Rank() > before.value.kind.Rank() then Some(Reading(last, reachFor(last)))
        else before
    }

    predicate InsideGiven(placed: map<ID, LaneID>, id: ID, best: Option<Reading>) {
      (id in placed && inScope(placed[id])) || (best.Some? && Scoped(best.value.row))
    }

    /** A prerequisite the scope's own walk already covers. */
    predicate Inside(id: ID) { InsideGiven(Placed(|rows|), id, Best(Work(id))) }

    // ---- The walk ----

    function Onward(at: OnPath, id: ID, work: seq<Row>): seq<OnPath> {
      seq(|work|, i requires 0 <= i < |work| => OnPath(work[i], at.via + [Hop(id, work[i].Id())]))
    }

    function Meet(gates: ID, at: OnPath, id: ID, w: Walk): Walk {
      if id in w.seen then w
      else if Inside(id) then w.(seen := w.seen + {id})
      else Walk(w.seen + {id}, w.chain + Onward(at, id, Work(id)),
        w.deps + [GatedDep(id, Best(Work(id)), gates, at.via)])
    }

    function MeetAll(gates: ID, at: OnPath, ids: seq<ID>, w: Walk): Walk {
      if ids == [] then w
      else Meet(gates, at, ids[|ids| - 1], MeetAll(gates, at, ids[..|ids| - 1], w))
    }

    /** The ids one row waits on, as the walk reads them: none once it is in flight. */
    function WaitsOn(row: Row): seq<ID> {
      if row.issue.state.Open? then Ids(row.Prerequisites()) else []
    }

    ghost predicate Known(row: Row) { row in rows || exists id :: id in workToward && row in workToward[id] }

    /** Every id any row the walk can reach waits on: what bounds seen. */
    ghost function Universe(): set<ID> {
      (set row, id | row in rows && id in WaitsOn(row) :: id) +
      (set key, row, id | key in workToward && row in workToward[key] && id in WaitsOn(row) :: id)
    }

    ghost predicate Sound(w: Walk) {
      w.seen <= Universe() && forall at :: at in w.chain ==> Known(at.row)
    }

    lemma {:induction false} MeetAllGrows(gates: ID, at: OnPath, ids: seq<ID>, w: Walk)
      requires Sound(w) && (forall id :: id in ids ==> id in Universe())
      ensures var after := MeetAll(gates, at, ids, w);
        Sound(after) && w.seen <= after.seen && w.chain <= after.chain && w.deps <= after.deps &&
        (after.seen == w.seen ==> after == w)
    {
      if ids != [] {
        var last := ids[|ids| - 1];
        MeetAllGrows(gates, at, ids[..|ids| - 1], w);
        var before := MeetAll(gates, at, ids[..|ids| - 1], w);
        if last !in before.seen {
          assert last !in w.seen && last in MeetAll(gates, at, ids, w).seen;
          forall next | next in Onward(at, last, Work(last)) ensures Known(next.row) {
            assert next.row in Work(last);
          }
        }
      }
    }

    /** Everything the rows from index i of the chain on lead to. */
    function Drain(gates: ID, i: nat, w: Walk): (after: Walk)
      requires Sound(w)
      ensures Sound(after)
      decreases Universe() - w.seen, |w.chain| - i
    {
      if i >= |w.chain| then w
      else
        var next := MeetAll(gates, w.chain[i], WaitsOn(w.chain[i].row), w);
        Advances(gates, i, w);
        Drain(gates, i + 1, next)
    }

    lemma Advances(gates: ID, i: nat, w: Walk)
      requires Sound(w) && i < |w.chain|
      ensures var next := MeetAll(gates, w.chain[i], WaitsOn(w.chain[i].row), w);
        Sound(next) && w.chain <= next.chain && w.deps <= next.deps && w.seen <= next.seen &&
        (next.seen == w.seen ==> next == w) &&
        (Universe() - next.seen < Universe() - w.seen || next == w)
    {
      var row := w.chain[i].row;
      assert w.chain[i] in w.chain && Known(row);
      MeetAllGrows(gates, w.chain[i], WaitsOn(row), w);
      var next := MeetAll(gates, w.chain[i], WaitsOn(row), w);
      if next.seen != w.seen {
        var id :| id in next.seen && id !in w.seen;
        assert id in Universe() - w.seen && id !in Universe() - next.seen;
      }
    }

    /** What the walk has met and collected once the first n rows are walked. */
    function Upto(n: nat): (w: Walk)
      requires n <= |rows|
      ensures w.chain == [] && Sound(w)
    {
      if n == 0 then Walk({}, [], [])
      else if !Scoped(rows[n - 1]) then Upto(n - 1)
      else Drain(rows[n - 1].Id(), 0, Upto(n - 1).(chain := [OnPath(rows[n - 1], [])])).(chain := [])
    }

    function Gating(): seq<GatedDep> { Upto(|rows|).deps }

    // ---- What the walk is for, said without a walk ----

    /** A hop may be taken to a row: its prerequisite is outside the scope, and
        the row is the work toward it that the hop names. */
    predicate Continues(hop: Hop, row: Row) {
      !Inside(hop.prerequisite) && row in Work(hop.prerequisite) && row.Id() == hop.through
    }

    /** The hops lead from one row to another, each through an open row that
        waits on the next prerequisite. */
    ghost predicate Leads(start: Row, via: seq<Hop>, row: Row)
      decreases |via|
    {
      if via == [] then row == start
      else
        var last := via[|via| - 1];
        exists mid :: Leads(start, via[..|via| - 1], mid) && last.prerequisite in WaitsOn(mid) && Continues(last, row)
    }

    ghost predicate Chain(start: Row, via: seq<Hop>, id: ID) {
      exists row :: Leads(start, via, row) && id in WaitsOn(row)
    }

    ghost predicate Reaches(start: Row, id: ID) { exists via :: Chain(start, via, id) }

    ghost predicate Shortest(start: Row, via: seq<Hop>, id: ID) {
      Chain(start, via, id) && forall other :: Chain(start, other, id) ==> |via| <= |other|
    }

    /** Some in-scope row among the first n reaches the id. */
    ghost predicate Reached(n: nat, id: ID)
      requires n <= |rows|
    {
      exists r :: 0 <= r < n && Scoped(rows[r]) && Reaches(rows[r], id)
    }

    /** Row r is the highest-ranked row in scope that reaches the id. */
    ghost predicate FirstTo(r: nat, id: ID) {
      r < |rows| && Scoped(rows[r]) && Reaches(rows[r], id) &&
      forall other :: 0 <= other < r && Scoped(rows[other]) ==> !Reaches(rows[other], id)
    }

    // ---- One row's prerequisites ----

    ghost predicate FromMeeting(at: OnPath, ids: seq<ID>, seen: set<ID>, next: OnPath) {
      |next.via| == |at.via| + 1 && next.via[..|at.via|] == at.via &&
      var hop := next.via[|at.via|];
      hop.prerequisite in ids && hop.prerequisite !in seen && Continues(hop, next.row)
    }

    ghost predicate Distinct(deps: seq<GatedDep>) {
      forall a, b :: 0 <= a < b < |deps| ==> deps[a].id != deps[b].id
    }

    ghost predicate Met(gates: ID, at: OnPath, ids: seq<ID>, w: Walk, after: Walk) {
      && (forall id :: id in after.seen <==> id in w.seen || id in ids)
      && w.chain <= after.chain && w.deps <= after.deps
      && (forall next :: next in after.chain[|w.chain|..] ==> FromMeeting(at, ids, w.seen, next))
      && (forall id, row :: id in ids && id !in w.seen && !Inside(id) && row in Work(id) ==>
            OnPath(row, at.via + [Hop(id, row.Id())]) in after.chain)
      && (forall dep :: dep in after.deps[|w.deps|..] ==>
            dep.id in ids && dep.id !in w.seen && !Inside(dep.id) &&
              dep == GatedDep(dep.id, Best(Work(dep.id)), gates, at.via))
      && (forall id :: id in ids && id !in w.seen && !Inside(id) ==>
            GatedDep(id, Best(Work(id)), gates, at.via) in after.deps[|w.deps|..])
      && Distinct(after.deps[|w.deps|..])
    }

    lemma {:induction false} MeetAllMeets(gates: ID, at: OnPath, ids: seq<ID>, w: Walk)
      ensures Met(gates, at, ids, w, MeetAll(gates, at, ids, w))
    {
      if ids != [] {
        var init, last := ids[..|ids| - 1], ids[|ids| - 1];
        assert ids == init + [last];
        MeetAllMeets(gates, at, init, w);
        MetOneMore(gates, at, init, last, w, MeetAll(gates, at, init, w));
      }
    }

    lemma MetOneMore(gates: ID, at: OnPath, ids: seq<ID>, id: ID, w: Walk, mid: Walk)
      requires Met(gates, at, ids, w, mid)
      ensures Met(gates, at, ids + [id], w, Meet(gates, at, id, mid))
    {
      if id !in mid.seen && !Inside(id) {
        MetANewOne(gates, at, ids, id, w, mid);
      }
    }

    lemma MetANewOne(gates: ID, at: OnPath, ids: seq<ID>, id: ID, w: Walk, mid: Walk)
      requires Met(gates, at, ids, w, mid) && id !in mid.seen && !Inside(id)
      ensures Met(gates, at, ids + [id], w, Meet(gates, at, id, mid))
    {
      var after := Meet(gates, at, id, mid);
      var dep := GatedDep(id, Best(Work(id)), gates, at.via);
      MeetsOne(gates, at, id, mid);
      assert after.chain[|w.chain|..] == mid.chain[|w.chain|..] + Onward(at, id, Work(id));
      assert after.deps[|w.deps|..] == mid.deps[|w.deps|..] + [dep];
      forall next | next in after.chain[|w.chain|..] ensures FromMeeting(at, ids + [id], w.seen, next) {
        if next in Onward(at, id, Work(id)) {
          assert FromMeeting(at, [id], {}, next);
        }
      }
    }

    lemma MeetAllNext(gates: ID, at: OnPath, ids: seq<ID>, p: nat, w: Walk)
      requires p < |ids|
      ensures MeetAll(gates, at, ids[..p + 1], w) == Meet(gates, at, ids[p], MeetAll(gates, at, ids[..p], w))
    {
      assert ids[..p + 1][..p] == ids[..p];
    }

    lemma MeetsOne(gates: ID, at: OnPath, id: ID, w: Walk)
      requires !Inside(id)
      ensures forall next :: next in Onward(at, id, Work(id)) ==>
        FromMeeting(at, [id], {}, next)
      ensures forall row :: row in Work(id) ==> OnPath(row, at.via + [Hop(id, row.Id())]) in Onward(at, id, Work(id))
    {
      var onward := Onward(at, id, Work(id));
      forall row | row in Work(id) ensures OnPath(row, at.via + [Hop(id, row.Id())]) in onward {
        var i :| 0 <= i < |Work(id)| && Work(id)[i] == row;
        assert onward[i] == OnPath(row, at.via + [Hop(id, row.Id())]);
      }
    }
  }

  /** The lane of each earlier lane-mate a row waits behind, read off every row. */
  method PlacedLaneMates(q: Queue) returns (placed: map<ID, LaneID>)
    ensures placed == q.Placed(|q.rows|)
  {
    placed := map[];
    for r := 0 to |q.rows|
      invariant placed == q.Placed(r)
    {
      var readiness := ClassifyReadiness(q.rows[r].annotations);
      var prerequisites := Prerequisites(readiness);
      for p := 0 to |prerequisites|
        invariant placed == q.PlacedBy(q.Placed(r), q.rows[r], prerequisites[..p])
      {
        assert prerequisites[..p + 1][..p] == prerequisites[..p];
        if prerequisites[p].InWaitersLane() {
          placed := placed[prerequisites[p].Ticket() := q.laneOf(q.rows[r])];
        }
      }
      assert prerequisites[..|prerequisites|] == prerequisites;
    }
  }

  method BestOf(q: Queue, work: seq<Row>) returns (best: Option<Reading>)
    ensures best == q.Best(work)
  {
    best := None;
    for i := 0 to |work|
      invariant best == q.Best(work[..i])
    {
      assert work[..i + 1][..i] == work[..i];
      var kind := q.reachFor(work[i]);
      if best.None? || kind.Rank() > best.value.kind.Rank() {
        best := Some(Reading(work[i], kind));
      }
    }
    assert work[..|work|] == work;
  }

  /** The walk as it runs: seen, chain and deps grown in place. */
  method GatingDependencies(q: Queue) returns (deps: seq<GatedDep>)
    ensures deps == q.Gating()
  {
    var placed := PlacedLaneMates(q);
    var seen: set<ID> := {};
    deps := [];
    for r := 0 to |q.rows|
      invariant Walk(seen, [], deps) == q.Upto(r)
    {
      var gated := q.rows[r];
      if !q.inScope(q.laneOf(gated)) {
        continue;
      }
      var chain := [OnPath(gated, [])];
      ghost var start := Walk(seen, chain, deps);
      var i := 0;
      while i < |chain|
        invariant q.Sound(Walk(seen, chain, deps))
        invariant q.Drain(gated.Id(), i, Walk(seen, chain, deps)) == q.Drain(gated.Id(), 0, start)
        decreases q.Universe() - seen, |chain| - i
      {
        ghost var before := Walk(seen, chain, deps);
        q.Advances(gated.Id(), i, before);
        seen, chain, deps := ExpandOne(q, placed, gated.Id(), chain[i], seen, chain, deps);
        i := i + 1;
      }
    }
  }

  /** The work toward a collected dependency, queued behind the rest. */
  method QueueWork(q: Queue, at: OnPath, id: ID, work: seq<Row>, chain0: seq<OnPath>) returns (chain: seq<OnPath>)
    ensures chain == chain0 + q.Onward(at, id, work)
  {
    chain := chain0;
    for w := 0 to |work|
      invariant chain == chain0 + q.Onward(at, id, work)[..w]
    {
      chain := chain + [OnPath(work[w], at.via + [Hop(id, work[w].Id())])];
    }
  }

  /** One queued row's prerequisites, met in order. */
  method ExpandOne(
    q: Queue, placed: map<ID, LaneID>, gates: ID, at: OnPath, seen0: set<ID>, chain0: seq<OnPath>,
    deps0: seq<GatedDep>)
    returns (seen: set<ID>, chain: seq<OnPath>, deps: seq<GatedDep>)
    requires placed == q.Placed(|q.rows|)
    ensures Walk(seen, chain, deps) == q.MeetAll(gates, at, q.WaitsOn(at.row), Walk(seen0, chain0, deps0))
  {
    seen, chain, deps := seen0, chain0, deps0;
    if !at.row.issue.state.Open? {
      return;
    }
    var readiness := ClassifyReadiness(at.row.annotations);
    var prerequisites := Prerequisites(readiness);
    ghost var ids := Ids(prerequisites);
    for p := 0 to |prerequisites|
      invariant Walk(seen, chain, deps) == q.MeetAll(gates, at, ids[..p], Walk(seen0, chain0, deps0))
    {
      q.MeetAllNext(gates, at, ids, p, Walk(seen0, chain0, deps0));
      var id := prerequisites[p].Ticket();
      if id in seen {
        continue;
      }
      seen := seen + {id};
      var work := q.Work(id);
      var best := BestOf(q, work);
      if (id in placed && q.inScope(placed[id])) || (best.Some? && q.inScope(q.laneOf(best.value.row))) {
        continue;
      }
      deps := deps + [GatedDep(id, best, gates, at.via)];
      chain := QueueWork(q, at, id, work, chain);
    }
    assert ids[..|ids|] == ids;
  }
}
