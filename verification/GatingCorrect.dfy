// What the dependency walk collects: every prerequisite outside the scope that
// an open row inside it reaches, once, credited to the highest-ranked row that
// reaches it, by a shortest chain.
module GatingCorrect {
  import opened Model
  import opened Readiness
  import opened Gating

  // ---- The breadth-first walk from one in-scope row, rows[k] ----

  /** The queue is ordered by depth, and spans at most two depths past what is expanded. */
  ghost predicate Layered(chain: seq<OnPath>, i: nat) {
    && (forall a, b :: 0 <= a <= b < |chain| ==> |chain[a].via| <= |chain[b].via|)
    && (forall a, b :: i <= a < |chain| && 0 <= b < |chain| ==> |chain[b].via| <= |chain[a].via| + 1)
  }

  ghost predicate Expanded(q: Queue, i: nat, w: Walk)
    requires i <= |w.chain|
  {
    forall j, id :: 0 <= j < i && id in q.WaitsOn(w.chain[j].row) ==> id in w.seen
  }

  /** A dependency collected from rows[k] that no higher-ranked row had met. */
  ghost predicate Credited(q: Queue, k: nat, dep: GatedDep)
    requires k < |q.rows|
  {
    && dep.id !in q.Upto(k).seen && !q.Inside(dep.id)
    && dep.best == q.Best(q.Work(dep.id)) && dep.gates == q.rows[k].Id()
    && q.Shortest(q.rows[k], dep.via, dep.id)
  }

  ghost predicate Queued(q: Queue, dep: GatedDep, chain: seq<OnPath>) {
    forall row :: row in q.Work(dep.id) ==> OnPath(row, dep.via + [Hop(dep.id, row.Id())]) in chain
  }

  ghost predicate Nearest(deps: seq<GatedDep>, from: nat, limit: nat) {
    && (forall a, b :: from <= a <= b < |deps| ==> |deps[a].via| <= |deps[b].via|)
    && (forall a :: from <= a < |deps| ==> |deps[a].via| <= limit)
  }

  ghost predicate AllLead(q: Queue, start: Row, chain: seq<OnPath>) {
    forall at :: at in chain ==> q.Leads(start, at.via, at.row)
  }

  /** What rows[k] added to seen, it reaches; and each of those outside the scope was collected. */
  ghost predicate SeenGood(q: Queue, k: nat, w: Walk)
    requires k < |q.rows|
  {
    var base := q.Upto(k);
    && base.seen <= w.seen && base.deps <= w.deps
    && (forall id :: id in w.seen && id !in base.seen ==> q.Reaches(q.rows[k], id))
    && (forall id :: id in w.seen && id !in base.seen && !q.Inside(id) ==>
          exists dep :: dep in w.deps[|base.deps|..] && dep.id == id)
  }

  ghost predicate DepsGood(q: Queue, k: nat, w: Walk)
    requires k < |q.rows|
  {
    var base := q.Upto(k);
    && base.deps <= w.deps
    && (forall dep :: dep in w.deps[|base.deps|..] ==> DepGood(q, k, w, dep))
    && q.Distinct(w.deps[|base.deps|..])
  }

  ghost predicate Begun(q: Queue, k: nat, i: nat, w: Walk)
    requires k < |q.rows|
  {
    q.Sound(w) && q.Scoped(q.rows[k]) && i <= |w.chain| && w.chain != [] && w.chain[0] == OnPath(q.rows[k], [])
  }

  function Depth(chain: seq<OnPath>, i: nat): nat
    requires i <= |chain| && chain != []
  {
    |chain[if i < |chain| then i else |chain| - 1].via|
  }

  ghost predicate Inv(q: Queue, k: nat, i: nat, w: Walk)
    requires k < |q.rows|
  {
    && Begun(q, k, i, w)
    && AllLead(q, q.rows[k], w.chain)
    && Layered(w.chain, i)
    && Expanded(q, i, w)
    && SeenGood(q, k, w)
    && DepsGood(q, k, w)
    && Nearest(w.deps, |q.Upto(k).deps|, Depth(w.chain, i))
  }

  /** A higher-ranked row in scope already led here. */
  ghost predicate EarlierLeads(q: Queue, k: nat, row: Row)
    requires k <= |q.rows|
  {
    exists r, via :: 0 <= r < k && q.Scoped(q.rows[r]) && q.Leads(q.rows[r], via, row)
  }

  lemma LeadsOn(q: Queue, start: Row, via: seq<Hop>, mid: Row, hop: Hop, row: Row)
    requires q.Leads(start, via, mid) && hop.prerequisite in q.WaitsOn(mid) && q.Continues(hop, row)
    ensures q.Leads(start, via + [hop], row)
  {
    var longer := via + [hop];
    assert longer[..|longer| - 1] == via;
  }

  lemma EarlierLeadsOn(q: Queue, k: nat, mid: Row, hop: Hop, row: Row)
    requires k <= |q.rows| && EarlierLeads(q, k, mid) && hop.prerequisite in q.WaitsOn(mid) && q.Continues(hop, row)
    ensures EarlierLeads(q, k, row)
  {
    var r, via :| 0 <= r < k && q.Scoped(q.rows[r]) && q.Leads(q.rows[r], via, mid);
    LeadsOn(q, q.rows[r], via, mid, hop, row);
  }

  lemma ChainLeads(q: Queue, start: Row, via: seq<Hop>, hop: Hop, row: Row)
    requires q.Chain(start, via, hop.prerequisite) && q.Continues(hop, row)
    ensures q.Leads(start, via + [hop], row)
  {
    var mid :| q.Leads(start, via, mid) && hop.prerequisite in q.WaitsOn(mid);
    LeadsOn(q, start, via, mid, hop, row);
  }

  lemma ReachedLeads(q: Queue, k: nat, hop: Hop, row: Row)
    requires k <= |q.rows| && q.Reached(k, hop.prerequisite) && q.Continues(hop, row)
    ensures EarlierLeads(q, k, row)
  {
    var r :| 0 <= r < k && q.Scoped(q.rows[r]) && q.Reaches(q.rows[r], hop.prerequisite);
    var via := ReachesOn(q, q.rows[r], hop, row);
  }

  lemma ReachesOn(q: Queue, start: Row, hop: Hop, row: Row) returns (via: seq<Hop>)
    requires q.Reaches(start, hop.prerequisite) && q.Continues(hop, row)
    ensures q.Leads(start, via, row)
  {
    var init :| q.Chain(start, init, hop.prerequisite);
    ChainLeads(q, start, init, hop, row);
    via := init + [hop];
  }

  /** What rows[k] met outside the scope, it collected. */
  lemma MetIsCollected(q: Queue, k: nat, w: Walk, id: ID) returns (dep: GatedDep)
    requires k < |q.rows| && SeenGood(q, k, w) && DepsGood(q, k, w)
    requires id in w.seen && id !in q.Upto(k).seen && !q.Inside(id)
    ensures dep.id == id && q.Shortest(q.rows[k], dep.via, id) && Queued(q, dep, w.chain)
  {
    dep :| dep in w.deps[|q.Upto(k).deps|..] && dep.id == id;
    assert Credited(q, k, dep);
  }

  lemma NoLonger(q: Queue, start: Row, via: seq<Hop>, other: seq<Hop>, row: Row, id: ID)
    requires q.Shortest(start, via, id) && q.Leads(start, other, row) && id in q.WaitsOn(row)
    ensures |via| <= |other|
  {
    assert q.Chain(start, other, id);
  }

  lemma QueuedAt(q: Queue, dep: GatedDep, chain: seq<OnPath>, row: Row) returns (m: nat)
    requires Queued(q, dep, chain) && row in q.Work(dep.id)
    ensures m < |chain| && chain[m].row == row && |chain[m].via| == |dep.via| + 1
  {
    var onward := OnPath(row, dep.via + [Hop(dep.id, row.Id())]);
    assert onward in chain;
    m :| 0 <= m < |chain| && chain[m] == onward;
  }

  /** A hop out of an expanded row is queued one deeper at most. */
  lemma OneDeeper(q: Queue, k: nat, i: nat, w: Walk, j: nat, hop: Hop, row: Row) returns (m: nat)
    requires k < |q.rows| && Inv(q, k, i, w) && j < i
    requires hop.prerequisite in q.WaitsOn(w.chain[j].row) && q.Continues(hop, row)
    requires hop.prerequisite !in q.Upto(k).seen
    ensures m < |w.chain| && w.chain[m].row == row && |w.chain[m].via| <= |w.chain[j].via| + 1
  {
    var dep := MetIsCollected(q, k, w, hop.prerequisite);
    assert w.chain[j] in w.chain;
    NoLonger(q, q.rows[k], dep.via, w.chain[j].via, w.chain[j].row, dep.id);
    m := QueuedAt(q, dep, w.chain, row);
  }

  ghost predicate QueuedBy(chain: seq<OnPath>, row: Row, depth: nat) {
    exists j :: 0 <= j < |chain| && chain[j].row == row && |chain[j].via| <= depth
  }

  /** A row a higher-ranked row led to, or one the chain holds at that depth. */
  ghost predicate Accounted(q: Queue, k: nat, chain: seq<OnPath>, row: Row, depth: nat)
    requires k <= |q.rows|
  {
    EarlierLeads(q, k, row) || QueuedBy(chain, row, depth)
  }

  /** Every hop out of the expanded rows is accounted for one deeper. */
  ghost predicate Closed(q: Queue, k: nat, i: nat, chain: seq<OnPath>)
    requires k <= |q.rows| && i <= |chain|
  {
    forall j, hop: Hop, row :: 0 <= j < i && hop.prerequisite in q.WaitsOn(chain[j].row) && q.Continues(hop, row) ==>
      Accounted(q, k, chain, row, |chain[j].via| + 1)
  }

  lemma InvIsClosed(q: Queue, k: nat, i: nat, w: Walk)
    requires k < |q.rows| && Inv(q, k, i, w)
    requires forall id :: id in q.Upto(k).seen ==> q.Reached(k, id)
    ensures Closed(q, k, i, w.chain)
  {
    forall j, hop: Hop, row | 0 <= j < i && hop.prerequisite in q.WaitsOn(w.chain[j].row) && q.Continues(hop, row)
      ensures Accounted(q, k, w.chain, row, |w.chain[j].via| + 1)
    {
      HopAccounted(q, k, i, w, j, hop, row);
    }
  }

  lemma HopAccounted(q: Queue, k: nat, i: nat, w: Walk, j: nat, hop: Hop, row: Row)
    requires k < |q.rows| && Inv(q, k, i, w) && j < i
    requires hop.prerequisite in q.Upto(k).seen ==> q.Reached(k, hop.prerequisite)
    requires hop.prerequisite in q.WaitsOn(w.chain[j].row) && q.Continues(hop, row)
    ensures Accounted(q, k, w.chain, row, |w.chain[j].via| + 1)
  {
    if hop.prerequisite in q.Upto(k).seen {
      ReachedLeads(q, k, hop, row);
    } else {
      var m := OneDeeper(q, k, i, w, j, hop, row);
    }
  }

  /** Sharing seen across rows loses nothing: a row some hops lead to is one a
      higher-ranked row led to, or it is queued no deeper than those hops. */
  lemma {:induction false} Covered(q: Queue, k: nat, i: nat, chain: seq<OnPath>, via: seq<Hop>, row: Row)
    requires k < |q.rows| && i <= |chain| && Layered(chain, i) && Closed(q, k, i, chain)
    requires chain != [] && chain[0] == OnPath(q.rows[k], [])
    requires q.Leads(q.rows[k], via, row)
    requires i < |chain| ==> |via| <= |chain[i].via|
    ensures Accounted(q, k, chain, row, |via|)
    decreases |via|
  {
    if via == [] {
      assert chain[0].row == row;
    } else {
      var init, hop := via[..|via| - 1], via[|via| - 1];
      var mid :| q.Leads(q.rows[k], init, mid) && hop.prerequisite in q.WaitsOn(mid) && q.Continues(hop, row);
      Covered(q, k, i, chain, init, mid);
      if EarlierLeads(q, k, mid) {
        EarlierLeadsOn(q, k, mid, hop, row);
      } else {
        var j :| 0 <= j < |chain| && chain[j].row == mid && |chain[j].via| <= |init|;
        Shallower(chain, i, j, |via|);
        assert Accounted(q, k, chain, row, |chain[j].via| + 1);
      }
    }
  }

  lemma Shallower(chain: seq<OnPath>, i: nat, j: nat, depth: nat)
    requires Layered(chain, i) && i <= |chain| && j < |chain|
    requires i < |chain| ==> depth <= |chain[i].via|
    requires |chain[j].via| < depth
    ensures j < i
  {
  }

  /** seen, before rows[k] is walked, is exactly what the rows above it reach. */
  ghost predicate SeenIsReached(q: Queue, k: nat)
    requires k <= |q.rows|
  {
    forall id :: id in q.Upto(k).seen <==> q.Reached(k, id)
  }

  lemma EarlierReaches(q: Queue, k: nat, row: Row, id: ID)
    requires k <= |q.rows| && EarlierLeads(q, k, row) && id in q.WaitsOn(row)
    ensures q.Reached(k, id)
  {
    var r, via :| 0 <= r < k && q.Scoped(q.rows[r]) && q.Leads(q.rows[r], via, row);
    assert q.Chain(q.rows[r], via, id);
    assert q.Reaches(q.rows[r], id);
  }

  /** What is still unmet when the walk turns to chain[i] is no nearer than chain[i]. */
  lemma UnmetIsDeep(q: Queue, k: nat, i: nat, w: Walk, id: ID, via: seq<Hop>)
    requires k < |q.rows| && Inv(q, k, i, w) && SeenIsReached(q, k) && i < |w.chain|
    requires id !in w.seen && q.Chain(q.rows[k], via, id)
    ensures |w.chain[i].via| <= |via|
  {
    if |via| < |w.chain[i].via| {
      var row :| q.Leads(q.rows[k], via, row) && id in q.WaitsOn(row);
      InvIsClosed(q, k, i, w);
      Covered(q, k, i, w.chain, via, row);
      MetIfAccounted(q, k, i, w, row, id, |via|);
    }
  }

  lemma MetIfAccounted(q: Queue, k: nat, i: nat, w: Walk, row: Row, id: ID, depth: nat)
    requires k < |q.rows| && SeenIsReached(q, k) && SeenGood(q, k, w) && i < |w.chain| && Layered(w.chain, i) &&
      Expanded(q, i, w)
    requires Accounted(q, k, w.chain, row, depth) && depth < |w.chain[i].via| && id in q.WaitsOn(row)
    ensures id in w.seen
  {
    if EarlierLeads(q, k, row) {
      EarlierReaches(q, k, row, id);
    }
  }

  // ---- One step of the walk keeps the invariant ----

  lemma MetByHop(q: Queue, at: OnPath, ids: seq<ID>, seen: set<ID>, next: OnPath) returns (hop: Hop)
    requires q.FromMeeting(at, ids, seen, next)
    ensures next.via == at.via + [hop] && hop.prerequisite in ids && q.Continues(hop, next.row)
  {
    hop := next.via[|at.via|];
  }

  lemma AddedLead(q: Queue, start: Row, at: OnPath, ids: seq<ID>, seen: set<ID>, next: OnPath)
    requires q.Leads(start, at.via, at.row) && ids == q.WaitsOn(at.row)
    requires q.FromMeeting(at, ids, seen, next)
    ensures q.Leads(start, next.via, next.row)
  {
    var hop := MetByHop(q, at, ids, seen, next);
    LeadsOn(q, start, at.via, at.row, hop, next.row);
  }

  lemma LayeredStep(chain: seq<OnPath>, i: nat, longer: seq<OnPath>)
    requires i < |chain| && Layered(chain, i) && chain <= longer
    requires forall next :: next in longer[|chain|..] ==> |next.via| == |chain[i].via| + 1
    ensures Layered(longer, i + 1) && |chain[i].via| <= Depth(longer, i + 1)
  {
    forall b | |chain| <= b < |longer| ensures |longer[b].via| == |chain[i].via| + 1 {
      assert longer[b] in longer[|chain|..];
    }
  }

  lemma ChainStep(q: Queue, start: Row, i: nat, w: Walk, next: Walk, gates: ID)
    requires AllLead(q, start, w.chain) && i < |w.chain| && Layered(w.chain, i)
    requires q.Met(gates, w.chain[i], q.WaitsOn(w.chain[i].row), w, next)
    ensures AllLead(q, start, next.chain)
    ensures Layered(next.chain, i + 1) && |w.chain[i].via| <= Depth(next.chain, i + 1)
  {
    var at := w.chain[i];
    assert next.chain == w.chain + next.chain[|w.chain|..];
    assert at in w.chain;
    forall added | added in next.chain[|w.chain|..] ensures q.Leads(start, added.via, added.row) {
      AddedLead(q, start, at, q.WaitsOn(at.row), w.seen, added);
    }
    LayeredStep(w.chain, i, next.chain);
  }

  lemma SeenStep(q: Queue, k: nat, i: nat, w: Walk, next: Walk)
    requires k < |q.rows| && SeenGood(q, k, w) && i < |w.chain|
    requires q.Leads(q.rows[k], w.chain[i].via, w.chain[i].row)
    requires q.Met(q.rows[k].Id(), w.chain[i], q.WaitsOn(w.chain[i].row), w, next)
    ensures SeenGood(q, k, next)
  {
    var at, base := w.chain[i], q.Upto(k);
    forall id | id in next.seen && id !in base.seen ensures q.Reaches(q.rows[k], id) {
      if id !in w.seen {
        assert q.Chain(q.rows[k], at.via, id);
      }
    }
    SeenCollected(q, base, w, next, q.rows[k].Id(), at);
  }

  lemma SeenCollected(q: Queue, base: Walk, w: Walk, next: Walk, gates: ID, at: OnPath)
    requires base.deps <= w.deps && q.Met(gates, at, q.WaitsOn(at.row), w, next)
    requires forall id :: id in w.seen && id !in base.seen && !q.Inside(id) ==>
      exists dep :: dep in w.deps[|base.deps|..] && dep.id == id
    ensures forall id :: id in next.seen && id !in base.seen && !q.Inside(id) ==>
      exists dep :: dep in next.deps[|base.deps|..] && dep.id == id
  {
    assert next.deps[|base.deps|..] == w.deps[|base.deps|..] + next.deps[|w.deps|..];
    forall id | id in next.seen && id !in base.seen && !q.Inside(id)
      ensures exists dep :: dep in next.deps[|base.deps|..] && dep.id == id
    {
      if id in w.seen {
        var dep :| dep in w.deps[|base.deps|..] && dep.id == id;
        assert dep in next.deps[|base.deps|..];
      } else {
        var dep := GatedDep(id, q.Best(q.Work(id)), gates, at.via);
        assert dep in next.deps[|w.deps|..];
        assert dep in next.deps[|base.deps|..];
      }
    }
  }

  lemma DepStep(q: Queue, k: nat, i: nat, w: Walk, next: Walk, dep: GatedDep)
    requires k < |q.rows| && Inv(q, k, i, w) && SeenIsReached(q, k) && i < |w.chain|
    requires q.Met(q.rows[k].Id(), w.chain[i], q.WaitsOn(w.chain[i].row), w, next)
    requires dep in next.deps[|w.deps|..]
    ensures Credited(q, k, dep)
  {
    var at := w.chain[i];
    assert at in w.chain && q.Leads(q.rows[k], at.via, at.row);
    assert q.Chain(q.rows[k], at.via, dep.id);
    forall other | q.Chain(q.rows[k], other, dep.id) ensures |at.via| <= |other| {
      UnmetIsDeep(q, k, i, w, dep.id, other);
    }
  }

  ghost predicate DepGood(q: Queue, k: nat, w: Walk, dep: GatedDep)
    requires k < |q.rows|
  {
    dep.id in w.seen && Credited(q, k, dep) && Queued(q, dep, w.chain)
  }

  lemma DepsStep(q: Queue, k: nat, i: nat, w: Walk, next: Walk)
    requires k < |q.rows| && DepsGood(q, k, w) && i < |w.chain| && q.Upto(k).seen <= w.seen
    requires q.Met(q.rows[k].Id(), w.chain[i], q.WaitsOn(w.chain[i].row), w, next)
    requires forall dep :: dep in next.deps[|w.deps|..] ==> Credited(q, k, dep)
    ensures DepsGood(q, k, next)
  {
    var kept, added := w.deps[|q.Upto(k).deps|..], next.deps[|w.deps|..];
    DepsParts(q.Upto(k).deps, w.deps, next.deps);
    KeptGood(q, k, w, next, kept);
    AddedGood(q, k, w.chain[i], w, next, added);
    DistinctParts(q, kept, added, w.seen);
  }

  lemma DepsParts(base: seq<GatedDep>, deps: seq<GatedDep>, longer: seq<GatedDep>)
    requires base <= deps && deps <= longer
    ensures base <= longer && longer[|base|..] == deps[|base|..] + longer[|deps|..]
  {
  }

  lemma KeptGood(q: Queue, k: nat, w: Walk, next: Walk, kept: seq<GatedDep>)
    requires k < |q.rows| && w.chain <= next.chain && forall id :: id in w.seen ==> id in next.seen
    requires forall dep :: dep in kept ==> DepGood(q, k, w, dep)
    ensures forall dep :: dep in kept ==> DepGood(q, k, next, dep) && dep.id in w.seen
  {
    forall dep | dep in kept ensures DepGood(q, k, next, dep) && dep.id in w.seen {
      StaysGood(q, k, w, next, dep);
    }
  }

  lemma AddedGood(q: Queue, k: nat, at: OnPath, w: Walk, next: Walk, added: seq<GatedDep>)
    requires k < |q.rows| && q.Met(q.rows[k].Id(), at, q.WaitsOn(at.row), w, next) && added == next.deps[|w.deps|..]
    requires forall dep :: dep in added ==> Credited(q, k, dep)
    ensures q.Distinct(added) && forall dep :: dep in added ==> DepGood(q, k, next, dep) && dep.id !in w.seen
  {
    forall dep | dep in added ensures DepGood(q, k, next, dep) && dep.id !in w.seen {
      NewlyQueued(q, q.rows[k].Id(), at, w, next, dep);
    }
  }

  lemma StaysGood(q: Queue, k: nat, w: Walk, next: Walk, dep: GatedDep)
    requires k < |q.rows| && DepGood(q, k, w, dep) && w.chain <= next.chain
    requires forall id :: id in w.seen ==> id in next.seen
    ensures DepGood(q, k, next, dep)
  {
  }

  lemma DistinctParts(q: Queue, kept: seq<GatedDep>, added: seq<GatedDep>, seen: set<ID>)
    requires q.Distinct(kept) && q.Distinct(added)
    requires forall dep :: dep in kept ==> dep.id in seen
    requires forall dep :: dep in added ==> dep.id !in seen
    ensures q.Distinct(kept + added)
  {
    assert (kept + added)[|kept|..] == added;
    DistinctStep(q, kept, kept + added, seen);
  }

  lemma NewlyQueued(q: Queue, gates: ID, at: OnPath, w: Walk, next: Walk, dep: GatedDep)
    requires q.Met(gates, at, q.WaitsOn(at.row), w, next) && dep in next.deps[|w.deps|..]
    ensures Queued(q, dep, next.chain) && dep.id in next.seen && dep.id !in w.seen
  {
  }

  lemma NearestStep(deps: seq<GatedDep>, longer: seq<GatedDep>, from: nat, depth: nat, limit: nat)
    requires from <= |deps| && deps <= longer && Nearest(deps, from, depth) && depth <= limit
    requires forall dep :: dep in longer[|deps|..] ==> |dep.via| == depth
    ensures Nearest(longer, from, limit)
  {
    forall a | |deps| <= a < |longer| ensures |longer[a].via| == depth {
      assert longer[a] in longer[|deps|..];
    }
  }

  lemma Stepped(q: Queue, k: nat, i: nat, w: Walk)
    requires k < |q.rows| && Inv(q, k, i, w) && SeenIsReached(q, k) && i < |w.chain|
    ensures Inv(q, k, i + 1, q.MeetAll(q.rows[k].Id(), w.chain[i], q.WaitsOn(w.chain[i].row), w))
  {
    var next := q.MeetAll(q.rows[k].Id(), w.chain[i], q.WaitsOn(w.chain[i].row), w);
    q.Advances(q.rows[k].Id(), i, w);
    q.MeetAllMeets(q.rows[k].Id(), w.chain[i], q.WaitsOn(w.chain[i].row), w);
    ChainStep(q, q.rows[k], i, w, next, q.rows[k].Id());
    assert w.chain[i] in w.chain;
    SeenStep(q, k, i, w, next);
    forall dep | dep in next.deps[|w.deps|..] ensures Credited(q, k, dep) {
      DepStep(q, k, i, w, next, dep);
    }
    DepsStep(q, k, i, w, next);
    NearestStep(w.deps, next.deps, |q.Upto(k).deps|, |w.chain[i].via|, Depth(next.chain, i + 1));
  }

  lemma {:induction false} Drained(q: Queue, k: nat, i: nat, w: Walk)
    requires k < |q.rows| && Inv(q, k, i, w) && SeenIsReached(q, k)
    ensures var after := q.Drain(q.rows[k].Id(), i, w); Inv(q, k, |after.chain|, after)
    decreases q.Universe() - w.seen, |w.chain| - i
  {
    if i < |w.chain| {
      var next := q.MeetAll(q.rows[k].Id(), w.chain[i], q.WaitsOn(w.chain[i].row), w);
      Stepped(q, k, i, w);
      q.Advances(q.rows[k].Id(), i, w);
      Drained(q, k, i + 1, next);
    }
  }

  /** Row k, the walk over it done. */
  lemma WalkedFrom(q: Queue, k: nat) returns (after: Walk)
    requires k < |q.rows| && q.Scoped(q.rows[k]) && SeenIsReached(q, k)
    ensures Inv(q, k, |after.chain|, after) && q.Upto(k + 1) == after.(chain := [])
  {
    var begin := q.Upto(k).(chain := [OnPath(q.rows[k], [])]);
    assert begin.deps[|q.Upto(k).deps|..] == [];
    Drained(q, k, 0, begin);
    after := q.Drain(q.rows[k].Id(), 0, begin);
  }

  // ---- All the rows ----

  /** The dependency is outside the scope, carries the best reading of the work
      toward it, and is credited to the first row in scope that reaches it, by a
      shortest chain from that row. */
  ghost predicate Merited(q: Queue, dep: GatedDep) {
    && !q.Inside(dep.id) && dep.best == q.Best(q.Work(dep.id))
    && exists r ::
      0 <= r < |q.rows| && q.FirstTo(r, dep.id) && dep.gates == q.rows[r].Id() && q.Shortest(q.rows[r], dep.via, dep.id)
  }

  /** Dependencies of a higher-ranked row come first, and of one row's, the nearest. */
  ghost predicate InWalkOrder(q: Queue, deps: seq<GatedDep>) {
    forall a, b, ra, rb :: 0 <= a < b < |deps| && q.FirstTo(ra, deps[a].id) && q.FirstTo(rb, deps[b].id) ==>
      ra < rb || (ra == rb && |deps[a].via| <= |deps[b].via|)
  }

  ghost predicate Collected(q: Queue, n: nat)
    requires n <= |q.rows|
  {
    var w := q.Upto(n);
    && SeenIsReached(q, n) && q.Distinct(w.deps) && InWalkOrder(q, w.deps)
    && (forall dep :: dep in w.deps ==> dep.id in w.seen && Merited(q, dep))
    && (forall id :: id in w.seen && !q.Inside(id) ==> exists dep :: dep in w.deps && dep.id == id)
  }

  /** Walking rows[k] to its end meets exactly what rows[k] adds to what the rows above it reach. */
  lemma SeenAfter(q: Queue, k: nat, after: Walk)
    requires k < |q.rows| && SeenIsReached(q, k) && Inv(q, k, |after.chain|, after)
    requires q.Upto(k + 1).seen == after.seen
    ensures SeenIsReached(q, k + 1)
  {
    forall id ensures q.Reached(k + 1, id) <==> id in after.seen {
      ReachedNext(q, k, id);
      if q.Reaches(q.rows[k], id) {
        var via :| q.Chain(q.rows[k], via, id);
        EndReached(q, k, after, via, id);
      }
    }
  }

  lemma ReachedNext(q: Queue, k: nat, id: ID)
    requires k < |q.rows| && q.Scoped(q.rows[k])
    ensures q.Reached(k + 1, id) <==> q.Reached(k, id) || q.Reaches(q.rows[k], id)
  {
    if q.Reached(k + 1, id) {
      var r :| 0 <= r < k + 1 && q.Scoped(q.rows[r]) && q.Reaches(q.rows[r], id);
      assert r == k || q.Reached(k, id);
    }
  }

  lemma EndReached(q: Queue, k: nat, after: Walk, via: seq<Hop>, id: ID)
    requires k < |q.rows| && SeenIsReached(q, k) && Inv(q, k, |after.chain|, after)
    requires q.Chain(q.rows[k], via, id)
    ensures id in after.seen
  {
    var row :| q.Leads(q.rows[k], via, row) && id in q.WaitsOn(row);
    InvIsClosed(q, k, |after.chain|, after);
    Covered(q, k, |after.chain|, after.chain, via, row);
    if EarlierLeads(q, k, row) {
      EarlierReaches(q, k, row, id);
    }
  }

  lemma FirstIsK(q: Queue, k: nat, id: ID)
    requires k < |q.rows| && SeenIsReached(q, k) && q.Scoped(q.rows[k])
    requires id !in q.Upto(k).seen && q.Reaches(q.rows[k], id)
    ensures q.FirstTo(k, id)
  {
    assert !q.Reached(k, id);
  }

  lemma FirstIsOne(q: Queue, a: nat, b: nat, id: ID)
    requires q.FirstTo(a, id) && q.FirstTo(b, id)
    ensures a == b
  {
  }

  lemma FirstIsAbove(q: Queue, k: nat, r: nat, id: ID)
    requires k <= |q.rows| && q.Reached(k, id) && q.FirstTo(r, id)
    ensures r < k
  {
    var other :| 0 <= other < k && q.Scoped(q.rows[other]) && q.Reaches(q.rows[other], id);
  }

  lemma OrderStep(q: Queue, k: nat, deps: seq<GatedDep>, longer: seq<GatedDep>)
    requires k < |q.rows| && deps <= longer && InWalkOrder(q, deps)
    requires forall dep :: dep in deps ==> q.Reached(k, dep.id)
    requires forall dep :: dep in longer[|deps|..] ==> q.FirstTo(k, dep.id)
    requires forall a, b :: |deps| <= a <= b < |longer| ==> |longer[a].via| <= |longer[b].via|
    ensures InWalkOrder(q, longer)
  {
    forall a, b, ra, rb | 0 <= a < b < |longer| && q.FirstTo(ra, longer[a].id) && q.FirstTo(rb, longer[b].id)
      ensures ra < rb || (ra == rb && |longer[a].via| <= |longer[b].via|)
    {
      if b >= |deps| {
        assert longer[b] in longer[|deps|..];
        FirstIsOne(q, rb, k, longer[b].id);
        if a < |deps| {
          assert longer[a] in deps;
          FirstIsAbove(q, k, ra, longer[a].id);
        } else {
          assert longer[a] in longer[|deps|..];
          FirstIsOne(q, ra, k, longer[a].id);
        }
      } else {
        assert longer[a] == deps[a] && longer[b] == deps[b];
      }
    }
  }

  lemma AddedMerits(q: Queue, k: nat, dep: GatedDep)
    requires k < |q.rows| && SeenIsReached(q, k) && q.Scoped(q.rows[k]) && Credited(q, k, dep)
    ensures q.FirstTo(k, dep.id) && Merited(q, dep)
  {
    assert q.Chain(q.rows[k], dep.via, dep.id);
    FirstIsK(q, k, dep.id);
  }

  lemma MeritStep(q: Queue, k: nat, after: Walk)
    requires k < |q.rows| && SeenIsReached(q, k) && q.Scoped(q.rows[k]) && DepsGood(q, k, after)
    requires q.Upto(k).seen <= after.seen
    requires forall dep :: dep in q.Upto(k).deps ==> dep.id in q.Upto(k).seen && Merited(q, dep)
    ensures forall dep :: dep in after.deps ==> dep.id in after.seen && Merited(q, dep)
    ensures forall dep :: dep in after.deps[|q.Upto(k).deps|..] ==> q.FirstTo(k, dep.id)
  {
    var base := q.Upto(k);
    var added := after.deps[|base.deps|..];
    assert after.deps == base.deps + added;
    forall dep | dep in added ensures q.FirstTo(k, dep.id) && Merited(q, dep) && dep.id in after.seen {
      AddedMerits(q, k, dep);
    }
  }

  lemma DistinctDeps(q: Queue, k: nat, after: Walk)
    requires k < |q.rows| && DepsGood(q, k, after) && q.Distinct(q.Upto(k).deps)
    requires forall dep :: dep in q.Upto(k).deps ==> dep.id in q.Upto(k).seen
    ensures q.Distinct(after.deps)
  {
    forall dep | dep in after.deps[|q.Upto(k).deps|..] ensures dep.id !in q.Upto(k).seen {
      assert Credited(q, k, dep);
    }
    DistinctStep(q, q.Upto(k).deps, after.deps, q.Upto(k).seen);
  }

  lemma CollectedStep(q: Queue, k: nat)
    requires k < |q.rows| && Collected(q, k) && q.Scoped(q.rows[k])
    ensures Collected(q, k + 1)
  {
    var after := WalkedFrom(q, k);
    SeenAfter(q, k, after);
    MeritStep(q, k, after);
    DistinctDeps(q, k, after);
    CoverStep(q, k, after);
    OrderStep(q, k, q.Upto(k).deps, after.deps);
  }

  lemma CoverStep(q: Queue, k: nat, after: Walk)
    requires k < |q.rows| && SeenGood(q, k, after)
    requires forall id :: id in q.Upto(k).seen && !q.Inside(id) ==> exists dep :: dep in q.Upto(k).deps && dep.id == id
    ensures forall id :: id in after.seen && !q.Inside(id) ==> exists dep :: dep in after.deps && dep.id == id
  {
    var base := q.Upto(k);
    assert after.deps == base.deps + after.deps[|base.deps|..];
    forall id | id in after.seen && !q.Inside(id) ensures exists dep :: dep in after.deps && dep.id == id {
      if id in base.seen {
        var dep :| dep in base.deps && dep.id == id;
        assert dep in after.deps;
      } else {
        var dep :| dep in after.deps[|base.deps|..] && dep.id == id;
        assert dep in after.deps;
      }
    }
  }

  lemma DistinctStep(q: Queue, deps: seq<GatedDep>, longer: seq<GatedDep>, seen: set<ID>)
    requires deps <= longer && q.Distinct(deps) && q.Distinct(longer[|deps|..])
    requires forall dep :: dep in deps ==> dep.id in seen
    requires forall dep :: dep in longer[|deps|..] ==> dep.id !in seen
    ensures q.Distinct(longer)
  {
    forall a, b | 0 <= a < b < |longer| ensures longer[a].id != longer[b].id {
      if b < |deps| {
        assert longer[a] == deps[a] && longer[b] == deps[b];
      } else {
        assert longer[|deps|..][b - |deps|] == longer[b] && longer[b] in longer[|deps|..];
        if a < |deps| {
          assert longer[a] in deps;
        } else {
          assert longer[|deps|..][a - |deps|] == longer[a];
        }
      }
    }
  }

  lemma {:induction false} WalkCollects(q: Queue, n: nat)
    requires n <= |q.rows|
    ensures Collected(q, n)
  {
    if n == 0 {
      NothingYet(q);
    } else {
      var k := n - 1;
      WalkCollects(q, k);
      CollectedNext(q, k, n);
    }
  }

  lemma CollectedNext(q: Queue, k: nat, n: nat)
    requires k < |q.rows| && n == k + 1 && Collected(q, k)
    ensures Collected(q, n)
  {
    if q.Scoped(q.rows[k]) {
      CollectedStep(q, k);
    } else {
      PassedByStep(q, k);
    }
  }

  lemma NothingYet(q: Queue)
    ensures Collected(q, 0)
  {
  }

  lemma OutOfScopeReachesNothing(q: Queue, k: nat, id: ID)
    requires k < |q.rows| && !q.Scoped(q.rows[k])
    ensures q.Reached(k + 1, id) <==> q.Reached(k, id)
  {
    if q.Reached(k + 1, id) {
      var r :| 0 <= r < k + 1 && q.Scoped(q.rows[r]) && q.Reaches(q.rows[r], id);
      assert r < k;
    }
  }

  lemma PassedByStep(q: Queue, k: nat)
    requires k < |q.rows| && Collected(q, k) && !q.Scoped(q.rows[k])
    ensures Collected(q, k + 1)
  {
    assert q.Upto(k + 1) == q.Upto(k);
    forall id ensures q.Reached(k + 1, id) <==> q.Reached(k, id) {
      OutOfScopeReachesNothing(q, k, id);
    }
  }

  // ---- The main results ----

  /** A dependency is read by the work this checkout can do the most about, and
      by the first of it in rank order; with no work in view it has no reading. */
  lemma {:induction false} BestIsTheFirstOfTheMost(q: Queue, work: seq<Row>) returns (i: nat)
    ensures q.Best(work).None? <==> work == []
    ensures work != [] ==> i < |work| && q.Best(work) == Some(Reading(work[i], q.reachFor(work[i])))
    ensures forall j :: 0 <= j < |work| ==> q.reachFor(work[j]).Rank() <= q.reachFor(work[i]).Rank()
    ensures forall j :: 0 <= j < i && j < |work| ==> q.reachFor(work[j]).Rank() < q.reachFor(work[i]).Rank()
  {
    i := 0;
    if work != [] {
      var init := work[..|work| - 1];
      i := BestIsTheFirstOfTheMost(q, init);
      if init == [] || q.reachFor(work[|work| - 1]).Rank() > q.reachFor(init[i]).Rank() {
        i := |work| - 1;
      }
    }
  }

  predicate Behind(reasons: seq<BlockingReason>, id: ID) {
    exists reason :: reason in reasons && reason.InWaitersLane() && reason.Ticket() == id
  }

  lemma {:induction false} PlacedByIs(q: Queue, placed: map<ID, LaneID>, row: Row, reasons: seq<BlockingReason>, id: ID)
    ensures var after := q.PlacedBy(placed, row, reasons);
      if Behind(reasons, id) then id in after && after[id] == q.laneOf(row)
      else (id in after <==> id in placed) && (id in after ==> after[id] == placed[id])
  {
    if reasons != [] {
      assert reasons == reasons[..|reasons| - 1] + [reasons[|reasons| - 1]];
      PlacedByIs(q, placed, row, reasons[..|reasons| - 1], id);
    }
  }

  /** Row r is the last of the first n to wait behind the id as its earlier lane-mate. */
  ghost predicate LastBehind(q: Queue, n: nat, r: nat, id: ID)
    requires n <= |q.rows|
  {
    r < n && Behind(q.rows[r].Prerequisites(), id) &&
      forall other :: r < other < n ==> !Behind(q.rows[other].Prerequisites(), id)
  }

  ghost predicate NobodyBehind(q: Queue, n: nat, id: ID)
    requires n <= |q.rows|
  {
    forall r :: 0 <= r < n ==> !Behind(q.rows[r].Prerequisites(), id)
  }

  /** An id is placed exactly when some row waits behind it as its earlier lane-mate,
      and its lane is read off the last of those rows. */
  lemma {:induction false} PlacedByItsWaiter(q: Queue, n: nat, id: ID) returns (r: nat)
    requires n <= |q.rows|
    ensures id !in q.Placed(n) ==> NobodyBehind(q, n, id)
    ensures id in q.Placed(n) ==> LastBehind(q, n, r, id) && q.Placed(n)[id] == q.laneOf(q.rows[r])
  {
    r := 0;
    if n > 0 {
      r := PlacedByItsWaiter(q, n - 1, id);
      PlacedNext(q, n - 1, id);
      r := LastNext(q, n - 1, r, id, q.Placed(n - 1), q.Placed(n));
    }
  }

  lemma LastNext(q: Queue, n: nat, r: nat, id: ID, before: map<ID, LaneID>, after: map<ID, LaneID>)
    returns (last: nat)
    requires n < |q.rows|
    requires id !in before ==> NobodyBehind(q, n, id)
    requires id in before ==> LastBehind(q, n, r, id) && before[id] == q.laneOf(q.rows[r])
    requires Behind(q.rows[n].Prerequisites(), id) ==> id in after && after[id] == q.laneOf(q.rows[n])
    requires !Behind(q.rows[n].Prerequisites(), id) ==> (id in after <==> id in before)
    requires !Behind(q.rows[n].Prerequisites(), id) && id in before ==> after[id] == before[id]
    ensures id !in after ==> NobodyBehind(q, n + 1, id)
    ensures id in after ==> LastBehind(q, n + 1, last, id) && after[id] == q.laneOf(q.rows[last])
  {
    last := if Behind(q.rows[n].Prerequisites(), id) then n else r;
  }

  lemma PlacedNext(q: Queue, n: nat, id: ID)
    requires n < |q.rows|
    ensures Behind(q.rows[n].Prerequisites(), id) ==>
      id in q.Placed(n + 1) && q.Placed(n + 1)[id] == q.laneOf(q.rows[n])
    ensures !Behind(q.rows[n].Prerequisites(), id) ==> (id in q.Placed(n + 1) <==> id in q.Placed(n))
    ensures !Behind(q.rows[n].Prerequisites(), id) && id in q.Placed(n) ==>
      q.Placed(n + 1)[id] == q.Placed(n)[id]
  {
    PlacedByIs(q, q.Placed(n), q.rows[n], q.rows[n].Prerequisites(), id);
  }

  /** A dependency is collected exactly when it is outside the scope and an open
      row in scope waits on it, directly or through work outside the scope. */
  lemma CollectsExactlyTheGates(q: Queue, id: ID)
    ensures (exists dep :: dep in q.Gating() && dep.id == id) <==> q.Reached(|q.rows|, id) && !q.Inside(id)
    ensures q.Distinct(q.Gating())
  {
    WalkCollects(q, |q.rows|);
  }

  /** Each collected dependency is credited to the highest-ranked row in scope
      that reaches it at all, by a shortest chain from that row: sharing seen
      across rows neither misattributes a dependency nor lengthens its chain. */
  lemma CreditsTheFirstByTheShortest(q: Queue, dep: GatedDep) returns (r: nat)
    requires dep in q.Gating()
    ensures q.FirstTo(r, dep.id) && dep.gates == q.rows[r].Id() && q.Shortest(q.rows[r], dep.via, dep.id)
    ensures dep.best == q.Best(q.Work(dep.id))
  {
    WalkCollects(q, |q.rows|);
    assert Merited(q, dep);
    r :| 0 <= r < |q.rows| && q.FirstTo(r, dep.id) && dep.gates == q.rows[r].Id() &&
      q.Shortest(q.rows[r], dep.via, dep.id);
  }

  /** Rank comes first and nearness second: the first dependency collected that
      meets a test gates our highest-ranked row any such dependency gates, and is
      no further from it than any other such dependency of that row. */
  lemma CollectsInWalkOrder(q: Queue)
    ensures InWalkOrder(q, q.Gating())
  {
    WalkCollects(q, |q.rows|);
  }

  lemma InOrder(q: Queue, deps: seq<GatedDep>, a: nat, b: nat, ra: nat, rb: nat)
    requires InWalkOrder(q, deps) && a < b < |deps| && q.FirstTo(ra, deps[a].id) && q.FirstTo(rb, deps[b].id)
    ensures ra < rb || (ra == rb && |deps[a].via| <= |deps[b].via|)
  {
  }
}
