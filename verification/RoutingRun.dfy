// The loops of internal/cli/next_route.go as they run, each against the function
// the precedence is stated with.
module RoutingRun {
  import opened Model
  import opened Readiness
  import opened Gating
  import opened Routing

  /** epicsAbove of internal/cli/ready_state.go: nearest first, ended by a parent
      that is no epic and by a parent cycle. */
  method ClimbEpics(rel: Relations, ancestry: map<ID, Relations>) returns (ids: seq<ID>)
    ensures ids == EpicsAbove(rel, ancestry)
  {
    ids := [];
    var seen := {rel.issueID};
    var parent := rel.parent;
    while parent.Some? && parent.value.IsContainer() && parent.value.id !in seen
      invariant ids + Climb(parent, seen, ancestry) == EpicsAbove(rel, ancestry)
      decreases ParentsIn(ancestry) + ParentId(parent) - seen
    {
      var id := parent.value.id;
      assert ParentId(ParentOf(ancestry, id)) <= ParentsIn(ancestry);
      assert id in ParentsIn(ancestry) + ParentId(parent) - seen;
      ids := ids + [id];
      seen := seen + {id};
      parent := ParentOf(ancestry, id);
    }
  }

  method WorkTowardEach(w: World) returns (work: map<ID, seq<Row>>)
    ensures work == w.Work()
  {
    work := map[];
    for r := 0 to |w.rows|
      invariant work == w.WorkToward(r)
    {
      var row := w.rows[r];
      var ids := [row.Id()];
      if row.Id() in w.details {
        var above := ClimbEpics(w.details[row.Id()], w.epics);
        ids := ids + above;
      } else {
        assert w.TowardOf(row) == ids;
      }
      for i := 0 to |ids|
        invariant ids == w.TowardOf(row) && work == w.Index(w.WorkToward(r), row, ids[..i])
      {
        IndexUpto(w, w.WorkToward(r), row, ids, i);
        var before := if ids[i] in work then work[ids[i]] else [];
        work := work[ids[i] := before + [row]];
      }
      assert ids[..|ids|] == ids;
    }
  }

  lemma SelectUpto(rows: seq<Row>, i: nat, keep: Row -> bool)
    requires i < |rows|
    ensures Select(rows[..i + 1], keep) == Select(rows[..i], keep) + if keep(rows[i]) then [rows[i]] else []
  {
    assert rows[..i + 1][..i] == rows[..i];
  }

  lemma IndexUpto(w: World, work: map<ID, seq<Row>>, row: Row, ids: seq<ID>, i: nat)
    requires i < |ids|
    ensures var before := w.Index(work, row, ids[..i]);
      w.Index(work, row, ids[..i + 1]) == before[ids[i] := (if ids[i] in before then before[ids[i]] else []) + [row]]
  {
    assert ids[..i + 1][..i] == ids[..i];
  }

  /** The focus scope's order-preserving split. */
  method Split(w: World) returns (pool: seq<Row>, withheld: seq<Row>)
    ensures pool == w.Pool() && withheld == w.Withheld()
  {
    pool, withheld := [], [];
    for i := 0 to |w.rows|
      invariant pool == Select(w.rows[..i], w.InFocus()) && withheld == Select(w.rows[..i], Not(w.InFocus()))
    {
      SelectUpto(w.rows, i, w.InFocus());
      SelectUpto(w.rows, i, Not(w.InFocus()));
      if w.Scope().Holds(w.rows[i], w.LaneOfRow(w.rows[i])) {
        pool := pool + [w.rows[i]];
        continue;
      }
      withheld := withheld + [w.rows[i]];
    }
    assert w.rows[..|w.rows|] == w.rows;
  }

  method Pick(w: World, from: seq<Row>, serves: Row -> bool, inScope: LaneID -> bool, accept: set<Capacity>)
    returns (pick: Option<Row>)
    ensures pick == w.PickFrom(from, serves, inScope, accept)
  {
    for i := 0 to |from|
      invariant w.PickFrom(from, serves, inScope, accept) == w.PickFrom(from[i..], serves, inScope, accept)
    {
      var how := w.Verdict(from[i]);
      if serves(from[i]) && inScope(w.LaneOfRow(from[i])) && how in accept {
        return Some(from[i]);
      }
    }
    pick := None;
  }

  method FindOnPath(w: World, deps: seq<GatedDep>, serves: Row -> bool) returns (found: Option<(NextOutcome, Row)>)
    ensures found == w.OnPathDependency(deps, serves)
  {
    for i := 0 to |deps|
      invariant w.OnPathDependency(deps, serves) == w.OnPathDependency(deps[i..], serves)
    {
      var work := w.WorkOn(deps[i].id);
      for j := 0 to |work|
        invariant w.FirstTakeable(work, serves) == w.FirstTakeable(work[j..], serves)
      {
        if serves(work[j]) && w.ReachFor(work[j]) == Takeable {
          return Some((ServedFromDependency(work[j], w.LaneOfRow(work[j]), deps[i].gates, deps[i].via, deps[i].id),
            work[j]));
        }
      }
    }
    found := None;
  }

  method PassedOver(w: World, rows: seq<Row>) returns (passed: seq<RowReach>)
    ensures passed == w.ReachesOf(rows)
  {
    passed := [];
    for i := 0 to |rows|
      invariant passed == w.ReachesOf(rows)[..i]
    {
      passed := passed + [RowReach(rows[i].Id(), rows[i], w.ReachFor(rows[i]))];
    }
  }

  method HeldByThemselves(w: World) returns (held: seq<RowReach>)
    ensures held == w.ReachesOf(Select(w.rows, (row: Row) => w.HeldHere(row)))
  {
    held := [];
    ghost var keep := (row: Row) => w.HeldHere(row);
    for i := 0 to |w.rows|
      invariant held == w.ReachesOf(Select(w.rows[..i], keep))
    {
      assert w.rows[..i + 1][..i] == w.rows[..i];
      var row := w.rows[i];
      var kind := w.ReachFor(row);
      if w.Own().Covers(w.LaneOfRow(row)) && (kind == ReachKind.HeldByItself || kind.AwaitingOutside?) &&
        row.Readiness().HeldByItself() {
        held := held + [RowReach(row.Id(), row, kind)];
      }
    }
    assert w.rows[..|w.rows|] == w.rows;
  }

  method Blockers(w: World, deps: seq<GatedDep>) returns (blockers: seq<BlockerReach>)
    ensures blockers == w.BlockersOf(deps)
  {
    blockers := [];
    for i := 0 to |deps|
      invariant blockers == w.BlockersOf(deps)[..i]
    {
      var waits := w.AnyWaits(deps[i].id);
      blockers := blockers + [BlockerReach(deps[i].id, deps[i].best, !waits)];
    }
  }

  // ---- Rendering a diagnostic ----

  function OfKind(rows: seq<RowReach>, kind: nat): seq<string> {
    if rows == [] then []
    else
      var last := rows[|rows| - 1];
      OfKind(rows[..|rows| - 1], kind) + if last.kind.Rank() == kind then [last.Name()] else []
  }

  const REPORTED_KINDS := 4

  /** Rows grouped by kind into an array with a slot for every kind but the
      takeable one: a takeable row would be an index past its end. */
  method DescribeReach(rows: seq<RowReach>) returns (byKind: array<seq<string>>)
    requires forall i :: 0 <= i < |rows| ==> !rows[i].kind.Takeable?
    ensures fresh(byKind) && byKind.Length == REPORTED_KINDS
    ensures forall kind :: 0 <= kind < REPORTED_KINDS ==> byKind[kind] == OfKind(rows, kind)
  {
    byKind := new seq<string>[REPORTED_KINDS](kind => []);
    for i := 0 to |rows|
      invariant forall kind :: 0 <= kind < REPORTED_KINDS ==> byKind[kind] == OfKind(rows[..i], kind)
    {
      assert rows[..i + 1][..i] == rows[..i];
      byKind[rows[i].kind.Rank()] := byKind[rows[i].kind.Rank()] + [rows[i].Name()];
    }
    assert rows[..|rows|] == rows;
  }

  function NamesOf(rows: seq<RowReach>): seq<string> {
    if rows == [] then [] else NamesOf(rows[..|rows| - 1]) + [rows[|rows| - 1].Name()]
  }

  function Grouped(rows: seq<RowReach>): multiset<string> {
    multiset(OfKind(rows, 0)) + multiset(OfKind(rows, 1)) + multiset(OfKind(rows, 2)) + multiset(OfKind(rows, 3))
  }

  lemma OfKindNext(rows: seq<RowReach>, kind: nat)
    requires rows != []
    ensures var last := rows[|rows| - 1];
      multiset(OfKind(rows, kind)) ==
        multiset(OfKind(rows[..|rows| - 1], kind)) +
        if last.kind.Rank() == kind then multiset{last.Name()} else multiset{}
  {
  }

  /** The groups between them name every row the walk reports, as often as it
      reports it: none is dropped, and none said twice. */
  lemma {:induction false} GroupsAreTheRows(rows: seq<RowReach>)
    requires forall i :: 0 <= i < |rows| ==> !rows[i].kind.Takeable?
    ensures Grouped(rows) == multiset(NamesOf(rows))
  {
    if rows != [] {
      GroupsAreTheRows(rows[..|rows| - 1]);
      OfKindNext(rows, 0);
      OfKindNext(rows, 1);
      OfKindNext(rows, 2);
      OfKindNext(rows, 3);
      NamesNext(rows);
    }
  }

  lemma NamesNext(rows: seq<RowReach>)
    requires rows != []
    ensures multiset(NamesOf(rows)) == multiset(NamesOf(rows[..|rows| - 1])) + multiset{rows[|rows| - 1].Name()}
  {
  }

  // ---- What the work index holds ----

  /** details names each row as itself, as the read that fills it does. */
  ghost predicate NamesItself(w: World, row: Row) {
    row.Id() in w.details ==> w.details[row.Id()].issueID == row.Id()
  }

  lemma {:induction false} ClimbIsDistinct(parent: Option<Parent>, seen: set<ID>, ancestry: map<ID, Relations>)
    ensures var ids := Climb(parent, seen, ancestry);
      (forall id :: id in ids ==> id !in seen) && (forall i, j :: 0 <= i < j < |ids| ==> ids[i] != ids[j])
    decreases ParentsIn(ancestry) + ParentId(parent) - seen
  {
    if parent.Some? && parent.value.IsContainer() && parent.value.id !in seen {
      var id := parent.value.id;
      assert ParentId(ParentOf(ancestry, id)) <= ParentsIn(ancestry);
      assert id in ParentsIn(ancestry) + ParentId(parent) - seen;
      ClimbIsDistinct(ParentOf(ancestry, id), seen + {id}, ancestry);
    }
  }

  function Under(work: map<ID, seq<Row>>, id: ID): seq<Row> { if id in work then work[id] else [] }

  /** The climb is the parent chain, taken epic by epic for as long as there is a new
      one. */
  lemma {:induction false} ClimbFollowsParents(
    parent: Option<Parent>, seen: set<ID>, ancestry: map<ID, Relations>, i: nat)
    ensures var ids := Climb(parent, seen, ancestry);
      i <= |ids| ==>
        var above := if i == 0 then parent else ParentOf(ancestry, ids[i - 1]);
        if i < |ids| then above.Some? && above.value.IsContainer() && above.value.id == ids[i]
        else above.None? || !above.value.IsContainer() || above.value.id in seen || above.value.id in ids
    decreases ParentsIn(ancestry) + ParentId(parent) - seen
  {
    if parent.Some? && parent.value.IsContainer() && parent.value.id !in seen {
      var id := parent.value.id;
      assert ParentId(ParentOf(ancestry, id)) <= ParentsIn(ancestry);
      assert id in ParentsIn(ancestry) + ParentId(parent) - seen;
      if i > 0 {
        ClimbFollowsParents(ParentOf(ancestry, id), seen + {id}, ancestry, i - 1);
      }
    }
  }

  /** Each id is the epic the one before it sits under, the first the one parent names. */
  ghost predicate LineOfEpics(parent: Option<Parent>, ancestry: map<ID, Relations>, line: seq<ID>) {
    forall k :: 0 <= k < |line| ==> SitsAt(parent, ancestry, line, k)
  }

  predicate SitsAt(parent: Option<Parent>, ancestry: map<ID, Relations>, line: seq<ID>, k: int)
    requires 0 <= k < |line|
  {
    (if k == 0 then parent else ParentOf(ancestry, line[k - 1])) == Some(Parent(line[k], Epic))
  }

  ghost predicate Once(ids: seq<ID>) { forall i, j :: 0 <= i < j < |ids| ==> ids[i] != ids[j] }

  lemma ClimbIsALine(parent: Option<Parent>, seen: set<ID>, ancestry: map<ID, Relations>, n: nat)
    requires n <= |Climb(parent, seen, ancestry)|
    ensures LineOfEpics(parent, ancestry, Climb(parent, seen, ancestry)[..n])
  {
    var ids := Climb(parent, seen, ancestry);
    forall k | 0 <= k < n ensures SitsAt(parent, ancestry, ids[..n], k) {
      ClimbFollowsParents(parent, seen, ancestry, k);
    }
  }

  lemma RestIsALine(parent: Option<Parent>, ancestry: map<ID, Relations>, line: seq<ID>, id: ID, rest: seq<ID>)
    requires LineOfEpics(parent, ancestry, line) && line == [id] + rest
    ensures parent == Some(Parent(id, Epic)) && LineOfEpics(ParentOf(ancestry, id), ancestry, rest)
  {
    assert SitsAt(parent, ancestry, line, 0);
    forall k | 0 <= k < |rest| ensures SitsAt(ParentOf(ancestry, id), ancestry, rest, k) {
      assert SitsAt(parent, ancestry, line, k + 1);
    }
  }

  lemma {:induction false} LineIsClimbed(
    parent: Option<Parent>, seen: set<ID>, ancestry: map<ID, Relations>, line: seq<ID>)
    requires LineOfEpics(parent, ancestry, line) && Once(line) && forall id :: id in line ==> id !in seen
    ensures line <= Climb(parent, seen, ancestry)
    decreases |line|
  {
    if line != [] {
      var id, rest := line[0], line[1..];
      RestIsALine(parent, ancestry, line, id, rest);
      LineIsClimbed(ParentOf(ancestry, id), seen + {id}, ancestry, rest);
    }
  }

  /** A line of epics leads from the row up to one. */
  ghost predicate SitsUnder(w: World, row: Row, epic: ID, line: seq<ID>) {
    row.Id() in w.details && line != [] && line[|line| - 1] == epic && Once(line) &&
    w.details[row.Id()].issueID !in line && LineOfEpics(w.details[row.Id()].parent, w.epics, line)
  }

  /** A row is work toward itself and toward every epic it sits under, at any height. */
  lemma TowardIs(w: World, row: Row, id: ID)
    ensures id in w.TowardOf(row) <==> id == row.Id() || exists line :: SitsUnder(w, row, id, line)
  {
    if row.Id() in w.details {
      var rel := w.details[row.Id()];
      var ids := EpicsAbove(rel, w.epics);
      if id in ids {
        var k :| 0 <= k < |ids| && ids[k] == id;
        ClimbIsALine(rel.parent, {rel.issueID}, w.epics, k + 1);
        ClimbIsDistinct(rel.parent, {rel.issueID}, w.epics);
        assert SitsUnder(w, row, id, ids[..k + 1]);
      }
      if line :| SitsUnder(w, row, id, line) {
        LineIsClimbed(rel.parent, {rel.issueID}, w.epics, line);
      }
    }
  }

  lemma {:induction false} IndexAdds(w: World, work: map<ID, seq<Row>>, row: Row, ids: seq<ID>, id: ID)
    requires forall i, j :: 0 <= i < j < |ids| ==> ids[i] != ids[j]
    ensures Under(w.Index(work, row, ids), id) == Under(work, id) + if id in ids then [row] else []
  {
    if ids != [] {
      assert ids == ids[..|ids| - 1] + [ids[|ids| - 1]];
      IndexAdds(w, work, row, ids[..|ids| - 1], id);
    }
  }

  function TowardIt(w: World, id: ID): Row -> bool { (row: Row) => id in w.TowardOf(row) }

  /** The index answers, for a leaf and for an epic at any height alike, with the
      rows finishing which is work toward it: each once, in rank order. */
  lemma {:induction false} IndexIsTheRowsToward(w: World, n: nat, id: ID)
    requires n <= |w.rows| && forall row :: row in w.rows ==> NamesItself(w, row)
    ensures Under(w.WorkToward(n), id) == Select(w.rows[..n], TowardIt(w, id))
  {
    if n > 0 {
      IndexIsTheRowsToward(w, n - 1, id);
      var row := w.rows[n - 1];
      assert w.rows[..n] == w.rows[..n - 1] + [row];
      SelectNext(w.rows[..n - 1], row, TowardIt(w, id));
      RowIndexed(w, n, id);
    }
  }

  lemma RowIndexed(w: World, n: nat, id: ID)
    requires 0 < n <= |w.rows| && NamesItself(w, w.rows[n - 1])
    ensures Under(w.WorkToward(n), id) ==
      Under(w.WorkToward(n - 1), id) + if TowardIt(w, id)(w.rows[n - 1]) then [w.rows[n - 1]] else []
  {
    var row := w.rows[n - 1];
    TowardIsDistinct(w, row);
    IndexAdds(w, w.WorkToward(n - 1), row, w.TowardOf(row), id);
  }

  lemma SelectNext(rows: seq<Row>, row: Row, keep: Row -> bool)
    ensures Select(rows + [row], keep) == Select(rows, keep) + if keep(row) then [row] else []
  {
    assert (rows + [row])[..|rows|] == rows;
  }

  lemma TowardIsDistinct(w: World, row: Row)
    requires NamesItself(w, row)
    ensures var ids := w.TowardOf(row); forall i, j :: 0 <= i < j < |ids| ==> ids[i] != ids[j]
  {
    if row.Id() in w.details {
      ClimbIsDistinct(w.details[row.Id()].parent, {row.Id()}, w.epics);
    }
  }
}
