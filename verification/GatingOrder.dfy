// The order in which the walk collects what one row itself names.
module GatingOrder {
  import opened Model
  import opened Readiness
  import opened Gating
  import opened GatingCorrect

  /** x is named, and y no sooner. */
  ghost predicate NamedFirst(ids: seq<ID>, x: ID, y: ID) {
    exists i :: 0 <= i < |ids| && ids[i] == x && y !in ids[..i + 1]
  }

  lemma NamedFirstNext(init: seq<ID>, last: ID, x: ID, y: ID)
    ensures NamedFirst(init, x, y) ==> NamedFirst(init + [last], x, y)
    ensures x in init && y !in init ==> NamedFirst(init + [last], x, y)
    ensures NamedFirst(init + [last], x, y) ==> NamedFirst(init, x, y) || (x == last && y !in init && y != last)
  {
    var longer := init + [last];
    if x in init && y !in init {
      var i :| 0 <= i < |init| && init[i] == x;
      assert longer[..i + 1] == init[..i + 1] && longer[i] == x;
    }
    if i :| 0 <= i < |init| && init[i] == x && y !in init[..i + 1] {
      assert longer[..i + 1] == init[..i + 1] && longer[i] == x;
    }
    if i :| 0 <= i < |longer| && longer[i] == x && y !in longer[..i + 1] {
      if i < |init| {
        assert longer[..i + 1] == init[..i + 1] && init[i] == x;
      } else {
        assert longer[..i + 1] == longer;
      }
    }
  }

  // ---- One row's prerequisites, met in order ----

  ghost predicate InNamedOrder(ids: seq<ID>, deps: seq<GatedDep>) {
    && (forall dep :: dep in deps ==> dep.id in ids)
    && (forall a, b :: 0 <= a < b < |deps| ==> NamedFirst(ids, deps[a].id, deps[b].id))
  }

  lemma {:induction false} MeetsInOrder(q: Queue, gates: ID, at: OnPath, ids: seq<ID>, w: Walk)
    ensures var after := q.MeetAll(gates, at, ids, w);
      w.deps <= after.deps && InNamedOrder(ids, after.deps[|w.deps|..])
  {
    if ids != [] {
      var init, last := ids[..|ids| - 1], ids[|ids| - 1];
      assert ids == init + [last];
      MeetsInOrder(q, gates, at, init, w);
      q.MeetAllMeets(gates, at, init, w);
      MetNext(q, gates, at, init, last, w, q.MeetAll(gates, at, init, w));
    }
  }

  lemma MetNext(q: Queue, gates: ID, at: OnPath, init: seq<ID>, last: ID, w: Walk, mid: Walk)
    requires w.deps <= mid.deps && InNamedOrder(init, mid.deps[|w.deps|..])
    requires forall id :: id in init ==> id in mid.seen
    ensures var after := q.Meet(gates, at, last, mid);
      w.deps <= after.deps && InNamedOrder(init + [last], after.deps[|w.deps|..])
  {
    var after := q.Meet(gates, at, last, mid);
    var before, now := mid.deps[|w.deps|..], after.deps[|w.deps|..];
    forall a, b | 0 <= a < b < |now| ensures NamedFirst(init + [last], now[a].id, now[b].id) {
      NamedFirstNext(init, last, now[a].id, now[b].id);
      assert now[a] == before[a];
      assert b < |before| ==> now[b] == before[b];
    }
  }

  // ---- What is met deeper is not what the row names ----

  lemma {:induction false} DrainsDeeper(q: Queue, gates: ID, i: nat, w: Walk)
    requires q.Sound(w) && forall j :: i <= j < |w.chain| ==> w.chain[j].via != []
    ensures var after := q.Drain(gates, i, w);
      w.deps <= after.deps && forall dep :: dep in after.deps[|w.deps|..] ==> dep.via != []
    decreases q.Universe() - w.seen, |w.chain| - i
  {
    if i < |w.chain| {
      var at := w.chain[i];
      var next := q.MeetAll(gates, at, q.WaitsOn(at.row), w);
      q.Advances(gates, i, w);
      q.MeetAllMeets(gates, at, q.WaitsOn(at.row), w);
      DeeperStill(q, gates, at, q.WaitsOn(at.row), i, w, next);
      DrainsDeeper(q, gates, i + 1, next);
      DrainNext(q, gates, i, w, next);
      JoinsDeeper(w.deps, next.deps, q.Drain(gates, i, w).deps);
    }
  }

  lemma DrainNext(q: Queue, gates: ID, i: nat, w: Walk, next: Walk)
    requires q.Sound(w) && i < |w.chain| && next == q.MeetAll(gates, w.chain[i], q.WaitsOn(w.chain[i].row), w)
    ensures q.Sound(next) && q.Drain(gates, i, w) == q.Drain(gates, i + 1, next)
  {
    q.Advances(gates, i, w);
  }

  lemma JoinsDeeper(base: seq<GatedDep>, mid: seq<GatedDep>, all: seq<GatedDep>)
    requires base <= mid <= all
    requires forall dep :: dep in mid[|base|..] ==> dep.via != []
    requires forall dep :: dep in all[|mid|..] ==> dep.via != []
    ensures forall dep :: dep in all[|base|..] ==> dep.via != []
  {
    assert all[|base|..] == mid[|base|..] + all[|mid|..];
  }

  lemma DeeperStill(q: Queue, gates: ID, at: OnPath, ids: seq<ID>, i: nat, w: Walk, next: Walk)
    requires q.Met(gates, at, ids, w, next) && at.via != []
    requires forall j :: i <= j < |w.chain| ==> w.chain[j].via != []
    ensures forall j :: i <= j < |next.chain| ==> next.chain[j].via != []
    ensures forall dep :: dep in next.deps[|w.deps|..] ==> dep.via != []
  {
    NewIsDeeper(q, gates, at, ids, w, next);
    forall j | i <= j < |next.chain| ensures next.chain[j].via != [] {
      if j >= |w.chain| {
        assert next.chain[j] in next.chain[|w.chain|..];
      } else {
        assert next.chain[j] == w.chain[j];
      }
    }
  }

  lemma NewIsDeeper(q: Queue, gates: ID, at: OnPath, ids: seq<ID>, w: Walk, next: Walk)
    requires q.Met(gates, at, ids, w, next)
    ensures forall added :: added in next.chain[|w.chain|..] ==> added.via != []
  {
    forall added | added in next.chain[|w.chain|..] ensures added.via != [] {
      assert q.FromMeeting(at, ids, w.seen, added);
    }
  }

  // ---- One row's own walk ----

  /** Of those met with no hop between, whichever comes first the row names first. */
  ghost predicate DirectInOrder(ids: seq<ID>, deps: seq<GatedDep>) {
    forall a, b :: 0 <= a < b < |deps| && deps[a].via == deps[b].via == [] ==>
      NamedFirst(ids, deps[a].id, deps[b].id)
  }

  lemma RowInOrder(q: Queue, k: nat)
    requires k < |q.rows| && q.Scoped(q.rows[k])
    ensures q.Upto(k).deps <= q.Upto(k + 1).deps
    ensures DirectInOrder(q.WaitsOn(q.rows[k]), q.Upto(k + 1).deps[|q.Upto(k).deps|..])
  {
    var ids, gates, at := q.WaitsOn(q.rows[k]), q.rows[k].Id(), OnPath(q.rows[k], []);
    var begin := q.Upto(k).(chain := [at]);
    var next := q.MeetAll(gates, at, ids, begin);
    q.Advances(gates, 0, begin);
    q.MeetAllMeets(gates, at, ids, begin);
    MeetsInOrder(q, gates, at, ids, begin);
    AfterTheFirst(q, gates, at, ids, begin, next);
    DrainsDeeper(q, gates, 1, next);
    var after := q.Drain(gates, 0, begin);
    assert after == q.Drain(gates, 1, next);
    JoinsInOrder(ids, begin.deps, next.deps, after.deps);
  }

  lemma AfterTheFirst(q: Queue, gates: ID, at: OnPath, ids: seq<ID>, begin: Walk, next: Walk)
    requires begin.chain == [at] && q.Met(gates, at, ids, begin, next)
    ensures forall j :: 1 <= j < |next.chain| ==> next.chain[j].via != []
  {
    NewIsDeeper(q, gates, at, ids, begin, next);
    forall j | 1 <= j < |next.chain| ensures next.chain[j].via != [] {
      assert next.chain[j] in next.chain[|begin.chain|..];
    }
  }

  lemma JoinsInOrder(ids: seq<ID>, base: seq<GatedDep>, near: seq<GatedDep>, all: seq<GatedDep>)
    requires base <= near <= all && InNamedOrder(ids, near[|base|..])
    requires forall dep :: dep in all[|near|..] ==> dep.via != []
    ensures DirectInOrder(ids, all[|base|..])
  {
    var added, direct := all[|base|..], near[|base|..];
    forall a, b | 0 <= a < b < |added| && added[a].via == added[b].via == []
      ensures NamedFirst(ids, added[a].id, added[b].id)
    {
      DirectIsNear(base, near, all, b);
      assert added[a] == direct[a] && added[b] == direct[b];
    }
  }

  lemma DirectIsNear(base: seq<GatedDep>, near: seq<GatedDep>, all: seq<GatedDep>, b: nat)
    requires base <= near <= all && b < |all| - |base| && all[|base|..][b].via == []
    requires forall dep :: dep in all[|near|..] ==> dep.via != []
    ensures b < |near| - |base|
  {
    forall k | |near| <= k < |all| ensures all[k].via != [] {
      assert all[k] in all[|near|..];
    }
  }

  lemma {:induction false} UptoGrows(q: Queue, m: nat, n: nat)
    requires m <= n <= |q.rows|
    ensures q.Upto(m).deps <= q.Upto(n).deps
  {
    if m < n {
      UptoGrows(q, m, n - 1);
      if q.Scoped(q.rows[n - 1]) {
        RowInOrder(q, n - 1);
      }
    }
  }

  // ---- All of it ----

  lemma CollectedAt(q: Queue, r: nat, a: nat)
    requires a < |q.Gating()| && q.FirstTo(r, q.Gating()[a].id)
    ensures |q.Upto(r).deps| <= a < |q.Upto(r + 1).deps|
  {
    WalkCollects(q, r);
    UptoGrows(q, r, |q.rows|);
    NotYet(q, r, a);
    UptoGrows(q, r + 1, |q.rows|);
    CollectedByThen(q, r, a);
  }

  lemma CollectedByThen(q: Queue, r: nat, a: nat)
    requires a < |q.Gating()| && q.FirstTo(r, q.Gating()[a].id) && q.Upto(r + 1).deps <= q.Gating()
    ensures a < |q.Upto(r + 1).deps|
  {
    var dep, before := q.Gating()[a], q.Upto(r + 1).deps;
    assert dep in q.Gating();
    CollectsExactlyTheGates(q, dep.id);
    WalkCollects(q, r + 1);
    assert q.Reached(r + 1, dep.id);
    var same :| same in before && same.id == dep.id;
    var b :| 0 <= b < |before| && before[b] == same;
    OneOfEach(q, q.Gating(), a, b);
  }

  lemma OneOfEach(q: Queue, deps: seq<GatedDep>, a: nat, b: nat)
    requires q.Distinct(deps) && a < |deps| && b < |deps| && deps[a].id == deps[b].id
    ensures a == b
  {
  }

  lemma NotYet(q: Queue, r: nat, a: nat)
    requires a < |q.Gating()| && q.FirstTo(r, q.Gating()[a].id) && Collected(q, r)
    requires q.Upto(r).deps <= q.Gating()
    ensures |q.Upto(r).deps| <= a
  {
    if a < |q.Upto(r).deps| {
      assert q.Upto(r).deps[a] in q.Upto(r).deps;
      FirstIsAbove(q, r, r, q.Gating()[a].id);
    }
  }

  /** One of the row's annotations puts x first, and none up to it y. */
  ghost predicate SaysFirst(annotations: seq<Annotation>, x: ID, y: ID) {
    exists i :: 0 <= i < |annotations| && NamesFirst(annotations[i], x) &&
      forall j :: 0 <= j <= i ==> !NamesFirst(annotations[j], y)
  }

  predicate NamesFirst(a: Annotation, id: ID) {
    a.message == id && a.kind in {OpenDependency, InheritedDependency, EarlierSiblingPending}
  }

  function Named(annotations: seq<Annotation>): seq<ID> { Ids(WaitingReasons(Classify(annotations).blocking)) }

  lemma NamedNext(init: seq<Annotation>, last: Annotation)
    ensures Named(init + [last]) ==
      Named(init) +
      if last.kind in {OpenDependency, InheritedDependency, EarlierSiblingPending} then [last.message] else []
  {
    ReadInOrder(init, [last]);
    ReadsOne(last);
    WaitingInOrder(Classify(init).blocking, Classify([last]).blocking);
    NamedByOne(last);
    IdsJoin(WaitingReasons(Classify(init).blocking), WaitingReasons(Classify([last]).blocking));
  }

  lemma IdsJoin(front: seq<BlockingReason>, back: seq<BlockingReason>)
    ensures Ids(front + back) == Ids(front) + Ids(back)
  {
  }

  lemma NamedByOne(a: Annotation)
    ensures Named([a]) ==
      if a.kind in {OpenDependency, InheritedDependency, EarlierSiblingPending} then [a.message] else []
  {
    ReadsOne(a);
    WaitsIfOne(BlockingReason(a.kind, a.message));
  }

  lemma WaitsIfOne(reason: BlockingReason)
    ensures WaitingReasons([reason]) ==
      if reason.kind in {OpenDependency, InheritedDependency, EarlierSiblingPending} then [reason] else []
  {
    assert [reason][..0] == [];
  }

  lemma {:induction false} NamedAre(annotations: seq<Annotation>, y: ID)
    ensures y in Named(annotations) <==> exists a :: a in annotations && NamesFirst(a, y)
  {
    if annotations != [] {
      var init, last := annotations[..|annotations| - 1], annotations[|annotations| - 1];
      assert annotations == init + [last];
      NamedAre(init, y);
      NamedNext(init, last);
      assert y in Named(annotations) <==> y in Named(init) || NamesFirst(last, y);
    }
  }

  lemma {:induction false} NamedIs(annotations: seq<Annotation>, x: ID, y: ID)
    ensures NamedFirst(Named(annotations), x, y) ==> SaysFirst(annotations, x, y)
  {
    if annotations != [] {
      var init, last := annotations[..|annotations| - 1], annotations[|annotations| - 1];
      assert annotations == init + [last];
      NamedIs(init, x, y);
      NamedAre(init, y);
      NamedNext(init, last);
      SaysNext(init, last, x, y);
    }
  }

  lemma SaysNext(init: seq<Annotation>, last: Annotation, x: ID, y: ID)
    requires y in Named(init) <==> exists a :: a in init && NamesFirst(a, y)
    requires NamedFirst(Named(init), x, y) ==> SaysFirst(init, x, y)
    requires Named(init + [last]) ==
      Named(init) +
      if last.kind in {OpenDependency, InheritedDependency, EarlierSiblingPending} then [last.message] else []
    ensures NamedFirst(Named(init + [last]), x, y) ==> SaysFirst(init + [last], x, y)
  {
    var longer := init + [last];
    if SaysFirst(init, x, y) {
      var i :| 0 <= i < |init| && NamesFirst(init[i], x) && forall j :: 0 <= j <= i ==> !NamesFirst(init[j], y);
      assert longer[i] == init[i] && forall j :: 0 <= j <= i ==> longer[j] == init[j];
      assert NamesFirst(longer[i], x);
    }
    if last.kind in {OpenDependency, InheritedDependency, EarlierSiblingPending} {
      NamedFirstNext(Named(init), last.message, x, y);
      if last.message == x && y != x && y !in Named(init) {
        assert forall j :: 0 <= j < |init| ==> longer[j] == init[j] && longer[j] in init;
        assert NamesFirst(longer[|init|], x);
      }
    } else {
      assert Named(init) + [] == Named(init);
    }
  }

  /** Of two dependencies a row names itself, the one it names first is collected first. */
  lemma DirectInNamedOrder(q: Queue, r: nat, a: nat, b: nat)
    requires a < b < |q.Gating()| && q.Gating()[a].via == q.Gating()[b].via == []
    requires q.FirstTo(r, q.Gating()[a].id) && q.FirstTo(r, q.Gating()[b].id)
    ensures SaysFirst(q.rows[r].annotations, q.Gating()[a].id, q.Gating()[b].id)
  {
    CollectedAt(q, r, a);
    CollectedAt(q, r, b);
    RowInOrder(q, r);
    UptoGrows(q, r + 1, |q.rows|);
    PickedInOrder(q.WaitsOn(q.rows[r]), q.Gating(), q.Upto(r + 1).deps, |q.Upto(r).deps|, a, b);
    WaitsOnNamed(q, q.rows[r], q.Gating()[a].id, q.Gating()[b].id);
  }

  lemma PickedInOrder(ids: seq<ID>, all: seq<GatedDep>, upto: seq<GatedDep>, base: nat, a: nat, b: nat)
    requires base <= a < b < |upto| && upto <= all && DirectInOrder(ids, upto[base..])
    requires all[a].via == all[b].via == []
    ensures NamedFirst(ids, all[a].id, all[b].id)
  {
    var added := upto[base..];
    assert added[a - base] == all[a] && added[b - base] == all[b];
  }

  lemma WaitsOnNamed(q: Queue, row: Row, x: ID, y: ID)
    requires NamedFirst(q.WaitsOn(row), x, y)
    ensures SaysFirst(row.annotations, x, y)
  {
    NamedIs(row.annotations, x, y);
  }
}
