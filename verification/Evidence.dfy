// internal/claims/evidence.go: the backlog, or one lane's family, partitioned
// into lanes with every event filed under the lane of the issue it touched.
module Evidence {
  import opened Model
  import opened Sorting
  import opened Events
  import opened Standing

  function Lookup<T>(m: map<LaneID, seq<T>>, lane: LaneID): seq<T> { if lane in m then m[lane] else [] }

  datatype Lane = LaneReading(id: LaneID, members: seq<Issue>, events: seq<Event>)

  datatype Partition = Partition(
    lanes: map<ID, LaneID>, members: map<LaneID, seq<Issue>>, events: map<LaneID, seq<Event>>)
  {
    function MembersOf(lane: LaneID): seq<Issue> { Lookup(members, lane) }

    function EventsOf(lane: LaneID): seq<Event> { Lookup(events, lane) }

    function Lane(lane: LaneID): Lane { LaneReading(lane, MembersOf(lane), EventsOf(lane)) }
  }

  datatype Refusal =
    MissingParent(child: ID, parent: ID) | MissingIssue(event: string, issue: ID) | NotInFamily(issue: ID)

  /** What one read returns: issues, what each sits under, the parents' types and
      the history they carry. A lane's family is such a read, and so is the backlog. */
  datatype Read = Read(
    issues: seq<Issue>, parentByChild: map<ID, ID>, parentTypes: map<ID, IssueType>, events: seq<Event>)
  {
    predicate Orphaned(issue: Issue) {
      issue.id in parentByChild && parentByChild[issue.id] !in parentTypes
    }

    function ParentOf(issue: Issue): Option<Parent> {
      if issue.id in parentByChild && parentByChild[issue.id] in parentTypes then
        Some(Parent(parentByChild[issue.id], parentTypes[parentByChild[issue.id]]))
      else None
    }

    function LaneFor(issue: Issue): LaneID { LaneOf(issue, ParentOf(issue)) }

    function LanesOf(some: seq<Issue>): map<ID, LaneID> {
      if some == [] then map[]
      else LanesOf(some[..|some| - 1])[some[|some| - 1].id := LaneFor(some[|some| - 1])]
    }

    function MembersIn(some: seq<Issue>, lane: LaneID): seq<Issue> {
      if some == [] then []
      else
        var last := some[|some| - 1];
        MembersIn(some[..|some| - 1], lane) + if LaneFor(last) == lane then [last] else []
    }

    /** Nothing a partition needs is missing from the read. */
    ghost predicate Complete() {
      && (forall issue :: issue in issues ==> !Orphaned(issue))
      && (forall event :: event in events ==> exists issue :: issue in issues && issue.id == event.issueID)
    }

    /** Every lane's members in the order supplied, and its events oldest first. */
    ghost predicate PlacedAs(p: Partition) {
      && p.lanes == LanesOf(issues)
      && (forall lane :: p.MembersOf(lane) == MembersIn(issues, lane))
      && (forall lane :: lane in p.members ==> p.members[lane] != [])
      && (forall lane ::
        OldestFirst(p.EventsOf(lane)) && multiset(p.EventsOf(lane)) == multiset(EventsIn(events, p.lanes, lane)))
    }
  }

  function EventsIn(events: seq<Event>, lanes: map<ID, LaneID>, lane: LaneID): seq<Event> {
    if events == [] then []
    else
      var last := events[|events| - 1];
      EventsIn(events[..|events| - 1], lanes, lane) +
      if last.issueID in lanes && lanes[last.issueID] == lane then [last] else []
  }

  function TypesOf(issues: seq<Issue>): map<ID, IssueType> {
    if issues == [] then map[]
    else TypesOf(issues[..|issues| - 1])[issues[|issues| - 1].id := issues[|issues| - 1].issueType]
  }

  /** An issue sits in its epic's lane of its own key when what it is filed under is an
      epic, and otherwise in a lane of one. */
  lemma SitsIn(read: Read, issue: Issue)
    ensures read.LaneFor(issue) ==
      if issue.id in read.parentByChild && read.parentByChild[issue.id] in read.parentTypes &&
          read.parentTypes[read.parentByChild[issue.id]] == Epic
        then LaneID(read.parentByChild[issue.id], issue.lane, false)
      else LaneID("", issue.id, true)
  {
  }

  /** An id is typed exactly when an issue has it, and by that issue. */
  lemma {:induction false} TypesAre(issues: seq<Issue>, id: ID)
    ensures id in TypesOf(issues) <==> exists issue :: issue in issues && issue.id == id
    ensures id in TypesOf(issues) ==>
      exists issue :: issue in issues && issue.id == id && TypesOf(issues)[id] == issue.issueType
  {
    if issues != [] {
      var init, last := issues[..|issues| - 1], issues[|issues| - 1];
      assert issues == init + [last];
      TypesAre(init, id);
    }
  }

  /** The read NewEvidence partitions: a parent's type is its own issue's. */
  function Backlog(issues: seq<Issue>, parentByChild: map<ID, ID>, events: seq<Event>): Read {
    Read(issues, parentByChild, TypesOf(issues), events)
  }

  lemma {:induction false} LanesAre(read: Read, some: seq<Issue>, id: ID)
    ensures id in read.LanesOf(some) <==> exists issue :: issue in some && issue.id == id
    ensures id in read.LanesOf(some) ==>
      exists issue :: issue in some && issue.id == id && read.LanesOf(some)[id] == read.LaneFor(issue)
  {
    if some != [] {
      var init, last := some[..|some| - 1], some[|some| - 1];
      assert some == init + [last];
      LanesAre(read, init, id);
    }
  }

  /** A lane's members stand in the order they were supplied. */
  lemma {:induction false} MembersInOrder(read: Read, front: seq<Issue>, back: seq<Issue>, lane: LaneID)
    ensures read.MembersIn(front + back, lane) == read.MembersIn(front, lane) + read.MembersIn(back, lane)
    decreases |back|
  {
    if back == [] {
      assert front + back == front;
    } else {
      var init, last := back[..|back| - 1], back[|back| - 1];
      assert (front + back)[..|front + back| - 1] == front + init;
      MembersInOrder(read, front, init, lane);
    }
  }

  // ---- The partition as it is built ----

  ghost predicate MembersPlaced(members: map<LaneID, seq<Issue>>, read: Read, some: seq<Issue>) {
    && (forall lane :: Lookup(members, lane) == read.MembersIn(some, lane))
    && (forall lane :: lane in members ==> members[lane] != [])
  }

  lemma PlacedOne(members: map<LaneID, seq<Issue>>, read: Read, some: seq<Issue>, issue: Issue)
    requires MembersPlaced(members, read, some)
    ensures var lane := read.LaneFor(issue);
      MembersPlaced(members[lane := Lookup(members, lane) + [issue]], read, some + [issue])
  {
    var more := members[read.LaneFor(issue) := Lookup(members, read.LaneFor(issue)) + [issue]];
    assert (some + [issue])[..|some|] == some;
    forall lane ensures Lookup(more, lane) == read.MembersIn(some + [issue], lane) {
      assert Lookup(members, lane) == read.MembersIn(some, lane);
    }
  }

  lemma LanesNext(read: Read, some: seq<Issue>, issue: Issue)
    ensures read.LanesOf(some + [issue]) == read.LanesOf(some)[issue.id := read.LaneFor(issue)]
  {
    assert (some + [issue])[..|some|] == some;
  }

  /** The first n issues are placed, none of them an orphan. */
  ghost predicate PlacedUpto(read: Read, n: nat, lanes: map<ID, LaneID>, members: map<LaneID, seq<Issue>>)
    requires n <= |read.issues|
  {
    && lanes == read.LanesOf(read.issues[..n])
    && (forall j :: 0 <= j < n ==> !read.Orphaned(read.issues[j]))
    && MembersPlaced(members, read, read.issues[..n])
  }

  lemma PlacesNext(read: Read, n: nat, lanes: map<ID, LaneID>, members: map<LaneID, seq<Issue>>)
    requires n < |read.issues| && PlacedUpto(read, n, lanes, members) && !read.Orphaned(read.issues[n])
    ensures var issue := read.issues[n]; var lane := read.LaneFor(issue);
      PlacedUpto(read, n + 1, lanes[issue.id := lane], members[lane := Lookup(members, lane) + [issue]])
  {
    assert read.issues[..n + 1] == read.issues[..n] + [read.issues[n]];
    LanesNext(read, read.issues[..n], read.issues[n]);
    PlacedOne(members, read, read.issues[..n], read.issues[n]);
  }

  method PlaceIssues(read: Read)
    returns (orphan: Option<Issue>, lanes: map<ID, LaneID>, members: map<LaneID, seq<Issue>>)
    ensures orphan.None? <==> forall issue :: issue in read.issues ==> !read.Orphaned(issue)
    ensures orphan.Some? ==> orphan.value in read.issues && read.Orphaned(orphan.value)
    ensures orphan.None? ==> lanes == read.LanesOf(read.issues) && MembersPlaced(members, read, read.issues)
  {
    orphan, lanes, members := None, map[], map[];
    for i := 0 to |read.issues|
      invariant PlacedUpto(read, i, lanes, members)
    {
      var issue := read.issues[i];
      var parent: Option<Parent> := None;
      if issue.id in read.parentByChild {
        var parentID := read.parentByChild[issue.id];
        if parentID !in read.parentTypes {
          assert issue in read.issues && read.Orphaned(issue);
          orphan := Some(issue);
          return;
        }
        parent := Some(Parent(parentID, read.parentTypes[parentID]));
      }
      var lane := LaneOf(issue, parent);
      assert lane == read.LaneFor(issue);
      PlacesNext(read, i, lanes, members);
      lanes, members := lanes[issue.id := lane], members[lane := Lookup(members, lane) + [issue]];
    }
    assert read.issues[..|read.issues|] == read.issues;
  }

  ghost predicate EventsFiled(filed: map<LaneID, seq<Event>>, events: seq<Event>, lanes: map<ID, LaneID>) {
    forall lane :: Lookup(filed, lane) == EventsIn(events, lanes, lane)
  }

  lemma FiledOne(filed: map<LaneID, seq<Event>>, events: seq<Event>, lanes: map<ID, LaneID>, event: Event)
    requires EventsFiled(filed, events, lanes) && event.issueID in lanes
    ensures var lane := lanes[event.issueID];
      EventsFiled(filed[lane := Lookup(filed, lane) + [event]], events + [event], lanes)
  {
    var more := filed[lanes[event.issueID] := Lookup(filed, lanes[event.issueID]) + [event]];
    forall lane ensures Lookup(more, lane) == EventsIn(events + [event], lanes, lane) {
      EventsInNext(events, event, lanes, lane);
      assert Lookup(filed, lane) == EventsIn(events, lanes, lane);
    }
  }

  lemma EventsInNext(events: seq<Event>, event: Event, lanes: map<ID, LaneID>, lane: LaneID)
    ensures EventsIn(events + [event], lanes, lane) == EventsIn(events, lanes, lane) +
      if event.issueID in lanes && lanes[event.issueID] == lane then [event] else []
  {
    assert (events + [event])[..|events|] == events;
  }

  /** The first n events are filed, none of them stray. */
  ghost predicate FiledUpto(events: seq<Event>, n: nat, lanes: map<ID, LaneID>, filed: map<LaneID, seq<Event>>)
    requires n <= |events|
  {
    (forall j :: 0 <= j < n ==> events[j].issueID in lanes) && EventsFiled(filed, events[..n], lanes)
  }

  lemma FilesNext(events: seq<Event>, n: nat, lanes: map<ID, LaneID>, filed: map<LaneID, seq<Event>>)
    requires n < |events| && FiledUpto(events, n, lanes, filed) && events[n].issueID in lanes
    ensures var lane := lanes[events[n].issueID];
      FiledUpto(events, n + 1, lanes, filed[lane := Lookup(filed, lane) + [events[n]]])
  {
    FiledOne(filed, events[..n], lanes, events[n]);
    assert events[..n + 1] == events[..n] + [events[n]];
  }

  method FileEvents(events: seq<Event>, lanes: map<ID, LaneID>)
    returns (stray: Option<Event>, filed: map<LaneID, seq<Event>>)
    ensures stray.None? <==> forall event :: event in events ==> event.issueID in lanes
    ensures stray.Some? ==> stray.value in events && stray.value.issueID !in lanes
    ensures stray.None? ==> EventsFiled(filed, events, lanes)
  {
    stray, filed := None, map[];
    for i := 0 to |events|
      invariant FiledUpto(events, i, lanes, filed)
    {
      var event := events[i];
      if event.issueID !in lanes {
        stray := Some(event);
        return;
      }
      FilesNext(events, i, lanes, filed);
      filed := filed[lanes[event.issueID] := Lookup(filed, lanes[event.issueID]) + [event]];
    }
    assert events[..|events|] == events;
  }

  /** One ordering for every lane, the lanes taken in no particular order. */
  method SortLanes(filed: map<LaneID, seq<Event>>) returns (sorted: map<LaneID, seq<Event>>)
    ensures sorted.Keys == filed.Keys
    ensures forall lane ::
      lane in filed ==> OldestFirst(sorted[lane]) && multiset(sorted[lane]) == multiset(filed[lane])
  {
    sorted := filed;
    var left := filed.Keys;
    RecencyOrders();
    while left != {}
      invariant left <= filed.Keys && sorted.Keys == filed.Keys
      invariant forall lane :: lane in filed ==> multiset(sorted[lane]) == multiset(filed[lane])
      invariant forall lane :: lane in filed && lane !in left ==> OldestFirst(sorted[lane])
      decreases left
    {
      var lane :| lane in left;
      var inOrder := SortFunc(sorted[lane], CompareRecency);
      sorted := sorted[lane := inOrder];
      left := left - {lane};
    }
  }

  method NewPartition(read: Read) returns (r: Result<Partition, Refusal>)
    ensures r.Ok? <==> read.Complete()
    ensures r.Ok? ==> read.PlacedAs(r.value)
  {
    var orphan, lanes, members := PlaceIssues(read);
    if orphan.Some? {
      return Refused(MissingParent(orphan.value.id, read.parentByChild[orphan.value.id]));
    }
    var stray, filed := FileEvents(read.events, lanes);
    forall event: Event
      ensures event.issueID in lanes <==> exists issue :: issue in read.issues && issue.id == event.issueID {
      LanesAre(read, read.issues, event.issueID);
    }
    if stray.Some? {
      return Refused(MissingIssue(stray.value.id, stray.value.issueID));
    }
    var sorted := SortLanes(filed);
    forall lane
      ensures OldestFirst(Lookup(sorted, lane))
      ensures multiset(Lookup(sorted, lane)) == multiset(EventsIn(read.events, lanes, lane)) {
      assert Lookup(filed, lane) == EventsIn(read.events, lanes, lane);
    }
    r := Ok(Partition(lanes, members, sorted));
  }

  method NewEvidence(issues: seq<Issue>, parentByChild: map<ID, ID>, events: seq<Event>)
    returns (r: Result<Partition, Refusal>)
    ensures r.Ok? <==> Backlog(issues, parentByChild, events).Complete()
    ensures r.Ok? ==> Backlog(issues, parentByChild, events).PlacedAs(r.value)
  {
    var parentTypes: map<ID, IssueType> := map[];
    for i := 0 to |issues|
      invariant parentTypes == TypesOf(issues[..i])
    {
      assert issues[..i + 1][..i] == issues[..i];
      parentTypes := parentTypes[issues[i].id := issues[i].issueType];
    }
    assert issues[..|issues|] == issues;
    r := NewPartition(Read(issues, parentByChild, parentTypes, events));
  }

  /** What NewLane reads for an issue: its lane in the family that is read. */
  ghost predicate IsNewLane(issueID: ID, family: Read, lane: Lane) {
    exists q :: family.PlacedAs(q) && issueID in q.lanes && lane == q.Lane(q.lanes[issueID])
  }

  method NewLane(issueID: ID, family: Read) returns (r: Result<Lane, Refusal>)
    ensures r.Ok? <==> family.Complete() && exists issue :: issue in family.issues && issue.id == issueID
    ensures r.Ok? ==> IsNewLane(issueID, family, r.value)
  {
    var placed := NewPartition(family);
    if placed.Refused? {
      return Refused(placed.refusal);
    }
    LanesAre(family, family.issues, issueID);
    if issueID !in placed.value.lanes {
      return Refused(NotInFamily(issueID));
    }
    r := Ok(placed.value.Lane(placed.value.lanes[issueID]));
  }

  // ---- The family a lane is read from ----

  /** One stored relation: parentChild files src under dst. */
  datatype Relation = Relation(src: ID, dst: ID, parentChild: bool)

  predicate Files(rel: Relation, child: ID, parent: ID) {
    rel.parentChild && rel.src == child && rel.dst == parent
  }

  function ParentsOf(id: ID, relations: seq<Relation>): seq<ID> {
    if relations == [] then []
    else
      var last := relations[|relations| - 1];
      ParentsOf(id, relations[..|relations| - 1]) + if last.parentChild && last.src == id then [last.dst] else []
  }

  function FiledUnder(parents: seq<ID>, relations: seq<Relation>): set<ID> {
    if relations == [] then {}
    else
      var last := relations[|relations| - 1];
      FiledUnder(parents, relations[..|relations| - 1]) +
        if last.parentChild && last.dst in parents then {last.src} else {}
  }

  function FamilyIds(id: ID, relations: seq<Relation>): set<ID> {
    FiledUnder(ParentsOf(id, relations), relations) + {id}
  }

  method LaneFamily(id: ID, relations: seq<Relation>) returns (family: set<ID>)
    ensures family == FamilyIds(id, relations)
  {
    var parents: seq<ID> := [];
    for i := 0 to |relations|
      invariant parents == ParentsOf(id, relations[..i])
    {
      assert relations[..i + 1][..i] == relations[..i];
      if relations[i].parentChild && relations[i].src == id {
        parents := parents + [relations[i].dst];
      }
    }
    assert relations[..|relations|] == relations;
    family := {};
    for i := 0 to |relations|
      invariant family == FiledUnder(parents, relations[..i])
    {
      assert relations[..i + 1][..i] == relations[..i];
      if relations[i].parentChild && relations[i].dst in parents {
        family := family + {relations[i].src};
      }
    }
    assert relations[..|relations|] == relations;
    family := family + {id};
  }

  /** Some relation files the child under the parent. */
  ghost predicate FiledIn(relations: seq<Relation>, child: ID, parent: ID) {
    exists rel :: rel in relations && Files(rel, child, parent)
  }

  lemma FiledNext(init: seq<Relation>, last: Relation, child: ID, parent: ID)
    ensures FiledIn(init + [last], child, parent) <==> FiledIn(init, child, parent) || Files(last, child, parent)
  {
    assert last in init + [last];
    if rel :| rel in init && Files(rel, child, parent) {
      assert rel in init + [last];
    }
  }

  lemma {:induction false} ParentsAre(id: ID, relations: seq<Relation>, parent: ID)
    ensures parent in ParentsOf(id, relations) <==> FiledIn(relations, id, parent)
  {
    if relations != [] {
      var init, last := relations[..|relations| - 1], relations[|relations| - 1];
      assert relations == init + [last];
      ParentsAre(id, init, parent);
      FiledNext(init, last, id, parent);
    }
  }

  lemma {:induction false} FiledAre(parents: seq<ID>, relations: seq<Relation>, id: ID)
    ensures id in FiledUnder(parents, relations) <==>
      exists parent :: parent in parents && FiledIn(relations, id, parent)
  {
    if relations != [] {
      var init, last := relations[..|relations| - 1], relations[|relations| - 1];
      assert relations == init + [last];
      FiledAre(parents, init, id);
      forall parent ensures FiledIn(relations, id, parent) <==> FiledIn(init, id, parent) || Files(last, id, parent) {
        FiledNext(init, last, id, parent);
      }
    }
  }

  /** An issue's family is the issue and every issue filed under a parent of its. */
  lemma FamilyIs(id: ID, relations: seq<Relation>, other: ID)
    ensures other in FamilyIds(id, relations) <==>
      other == id || exists parent :: FiledIn(relations, id, parent) && FiledIn(relations, other, parent)
  {
    FiledAre(ParentsOf(id, relations), relations, other);
    forall parent ensures parent in ParentsOf(id, relations) <==> FiledIn(relations, id, parent) {
      ParentsAre(id, relations, parent);
    }
  }

  // ---- Standings ----

  type Standings = map<LaneID, Standing>

  function Of(standings: Standings, lane: LaneID): Standing {
    if lane in standings then standings[lane] else Unclaimed
  }

  /** standings is what a derivation over the evidence may answer. */
  ghost predicate Derived(standings: Standings, p: Partition, freshness: Freshness, local: LocalCheckouts) {
    && standings.Keys == p.members.Keys
    && (forall lane ::
      lane in standings ==> Answers(standings[lane], p.MembersOf(lane), p.EventsOf(lane), freshness, local))
  }

  method Derive(p: Partition, freshness: Freshness, local: LocalCheckouts) returns (standings: Standings)
    ensures Derived(standings, p, freshness, local)
  {
    standings := map[];
    var left := p.members.Keys;
    while left != {}
      invariant left <= p.members.Keys && standings.Keys == p.members.Keys - left
      invariant forall lane ::
        lane in standings ==> Answers(standings[lane], p.MembersOf(lane), p.EventsOf(lane), freshness, local)
      decreases left
    {
      var lane :| lane in left;
      var st := StandingOf(p.MembersOf(lane), p.EventsOf(lane), freshness, local);
      standings := standings[lane := st];
      left := left - {lane};
    }
  }

  // ---- Progress ----

  /** How many of some tickets are closed, of how many still in the flow. */
  datatype Progress = Progress(done: nat, total: nat)
  {
    function Plus(other: Progress): Progress { Progress(done + other.done, total + other.total) }
  }

  function One(issue: Issue): Progress {
    if issue.frozen then Progress(0, 0) else Progress(if issue.state == Closed then 1 else 0, 1)
  }

  function OneIf(counted: bool, issue: Issue): Progress { if counted then One(issue) else Progress(0, 0) }

  function ProgressOf(members: seq<Issue>): Progress {
    if members == [] then Progress(0, 0)
    else ProgressOf(members[..|members| - 1]).Plus(One(members[|members| - 1]))
  }

  /** The progress of the issues of a read whose lane is in scope, each counted once. */
  function CountIn(read: Read, some: seq<Issue>, inScope: LaneID -> bool): Progress {
    if some == [] then Progress(0, 0)
    else
      var last := some[|some| - 1];
      CountIn(read, some[..|some| - 1], inScope).Plus(OneIf(inScope(read.LaneFor(last)), last))
  }

  /** The issues of some whose lane is in scope and that are still in the flow, by index. */
  ghost function InFlow(read: Read, some: seq<Issue>, inScope: LaneID -> bool): set<nat> {
    set i: nat | i < |some| && inScope(read.LaneFor(some[i])) && !some[i].frozen
  }

  /** Those of them that are closed. */
  ghost function Finished(read: Read, some: seq<Issue>, inScope: LaneID -> bool): set<nat> {
    set i: nat | i < |some| && inScope(read.LaneFor(some[i])) && !some[i].frozen && some[i].state == Closed
  }

  lemma InFlowNext(read: Read, init: seq<Issue>, last: Issue, inScope: LaneID -> bool)
    ensures |InFlow(read, init + [last], inScope)| ==
      |InFlow(read, init, inScope)| + if inScope(read.LaneFor(last)) && !last.frozen then 1 else 0
  {
    assert InFlow(read, init + [last], inScope) ==
      InFlow(read, init, inScope) + if inScope(read.LaneFor(last)) && !last.frozen then {|init|} else {};
  }

  lemma FinishedNext(read: Read, init: seq<Issue>, last: Issue, inScope: LaneID -> bool)
    ensures |Finished(read, init + [last], inScope)| == |Finished(read, init, inScope)| +
      if inScope(read.LaneFor(last)) && !last.frozen && last.state == Closed then 1 else 0
  {
    FinishedAlso(read, init, last, inScope);
  }

  lemma FinishedAlso(read: Read, init: seq<Issue>, last: Issue, inScope: LaneID -> bool)
    ensures Finished(read, init + [last], inScope) == Finished(read, init, inScope) +
      if inScope(read.LaneFor(last)) && !last.frozen && last.state == Closed then {|init|} else {}
  {
    var longer := init + [last];
    forall i: nat | i < |init| ensures longer[i] == init[i] {
    }
    assert longer[|init|] == last;
  }

  /** A scope's total is the number of its issues in the flow, and done the number of
      those that are closed. */
  lemma {:induction false} ScopeCounts(read: Read, some: seq<Issue>, inScope: LaneID -> bool)
    ensures CountIn(read, some, inScope) == Progress(|Finished(read, some, inScope)|, |InFlow(read, some, inScope)|)
  {
    if some != [] {
      var init, last := some[..|some| - 1], some[|some| - 1];
      assert some == init + [last];
      ScopeCounts(read, init, inScope);
      ScopeCountsNext(read, init, last, inScope);
    }
  }

  lemma ScopeCountsNext(read: Read, init: seq<Issue>, last: Issue, inScope: LaneID -> bool)
    requires CountIn(read, init, inScope) == Progress(|Finished(read, init, inScope)|, |InFlow(read, init, inScope)|)
    ensures var some := init + [last];
      CountIn(read, some, inScope) == Progress(|Finished(read, some, inScope)|, |InFlow(read, some, inScope)|)
  {
    assert (init + [last])[..|init|] == init;
    InFlowNext(read, init, last, inScope);
    FinishedNext(read, init, last, inScope);
  }

  /** And so it is of a lane's own members. */
  lemma {:induction false} LaneCounts(read: Read, members: seq<Issue>, lane: LaneID)
    requires forall m :: m in members ==> read.LaneFor(m) == lane
    ensures ProgressOf(members) == CountIn(read, members, other => other == lane)
  {
    if members != [] {
      var init, last := members[..|members| - 1], members[|members| - 1];
      assert members == init + [last];
      LaneCounts(read, init, lane);
    }
  }

  /** The last member underway. */
  function ActiveIn(members: seq<Issue>): Option<Issue> {
    if members == [] then None
    else
      var last := members[|members| - 1];
      if !last.frozen && last.state == InProgress then Some(last) else ActiveIn(members[..|members| - 1])
  }

  /** A lane reads as active exactly when a member in the flow is in progress, and as
      the last such member. */
  lemma {:induction false} ActiveIsTheLast(members: seq<Issue>) returns (at: nat)
    ensures ActiveIn(members).None? <==> forall m :: m in members ==> m.frozen || m.state != InProgress
    ensures ActiveIn(members).Some? ==> at < |members| && ActiveIn(members).value == members[at]
    ensures ActiveIn(members).Some? ==> !ActiveIn(members).value.frozen && ActiveIn(members).value.state == InProgress
    ensures ActiveIn(members).Some? ==>
      forall i :: at < i < |members| ==> members[i].frozen || members[i].state != InProgress
  {
    at := 0;
    if members != [] {
      var init, last := members[..|members| - 1], members[|members| - 1];
      assert members == init + [last];
      if !last.frozen && last.state == InProgress {
        at := |init|;
      } else {
        at := ActiveIsTheLast(init);
      }
    }
  }

  method CountMembers(members: seq<Issue>) returns (progress: Progress, active: Option<Issue>)
    ensures progress == ProgressOf(members) && active == ActiveIn(members)
  {
    var done, total := 0, 0;
    active := None;
    for i := 0 to |members|
      invariant Progress(done, total) == ProgressOf(members[..i]) && active == ActiveIn(members[..i])
    {
      assert members[..i + 1][..i] == members[..i];
      if !members[i].frozen {
        total := total + 1;
        match members[i].state
        case Closed => done := done + 1;
        case InProgress => active := Some(members[i]);
        case Open => {}
      }
    }
    assert members[..|members|] == members;
    progress := Progress(done, total);
  }

  function Others(members: seq<Issue>, id: ID): seq<Issue> {
    if members == [] then []
    else
      var last := members[|members| - 1];
      Others(members[..|members| - 1], id) + if last.id == id then [] else [last]
  }

  /** A lane's progress as it will read once the written issue lands. */
  function ProgressWith(members: seq<Issue>, written: Issue): Progress {
    ProgressOf(Others(members, written.id) + [written])
  }

  lemma {:induction false} OthersAre(members: seq<Issue>, id: ID)
    requires forall i :: 0 <= i < |members| ==> members[i].id != id
    ensures Others(members, id) == members
  {
    if members != [] {
      var init, last := members[..|members| - 1], members[|members| - 1];
      OthersAre(init, id);
      assert members == init + [last];
    }
  }

  lemma OthersNext(init: seq<Issue>, last: Issue, id: ID)
    ensures Others(init + [last], id) == Others(init, id) + if last.id == id then [] else [last]
  {
    assert (init + [last])[..|init|] == init;
  }

  lemma ProgressWithNext(init: seq<Issue>, last: Issue, written: Issue)
    requires last.id != written.id
    ensures ProgressWith(init + [last], written) == ProgressWith(init, written).Plus(One(last))
  {
    OthersNext(init, last, written.id);
    ProgressOfSwapped(Others(init, written.id), last, written);
  }

  lemma ProgressOfSwapped(members: seq<Issue>, a: Issue, b: Issue)
    ensures ProgressOf(members + [a] + [b]) == ProgressOf(members + [b]).Plus(One(a))
  {
    ProgressNext(members, a);
    ProgressNext(members + [a], b);
    ProgressNext(members, b);
    PlusSwaps(ProgressOf(members), One(a), One(b));
  }

  lemma PlusSwaps(p: Progress, a: Progress, b: Progress)
    ensures p.Plus(a).Plus(b) == p.Plus(b).Plus(a)
  {
  }

  lemma ProgressWithLast(init: seq<Issue>, last: Issue, written: Issue)
    requires last.id == written.id && forall i :: 0 <= i < |init| ==> init[i].id != written.id
    ensures ProgressWith(init + [last], written) == ProgressOf(init + [written])
  {
    OthersNext(init, last, written.id);
    OthersAre(init, written.id);
    assert init + [] == init;
  }

  /** It is the progress of the members with the written issue in its place, or
      beside them when it is not among them. */
  lemma {:induction false} ProgressWithIsTheWrite(members: seq<Issue>, written: Issue, at: nat)
    requires at <= |members| && forall i :: 0 <= i < |members| && i != at ==> members[i].id != written.id
    requires at < |members| ==> members[at].id == written.id
    ensures ProgressWith(members, written) ==
      ProgressOf(if at < |members| then members[at := written] else members + [written])
  {
    if at == |members| {
      OthersAre(members, written.id);
    } else {
      var init, last := members[..|members| - 1], members[|members| - 1];
      assert members == init + [last];
      if at == |init| {
        ProgressWithLast(init, last, written);
        assert members[at := written] == init + [written];
      } else {
        ProgressWithIsTheWrite(init, written, at);
        ProgressWithNext(init, last, written);
        ProgressNext(init[at := written], last);
        assert members[at := written] == init[at := written] + [last];
      }
    }
  }

  /** The part of a scope's count that the lanes visited so far make up. */
  function CountWithin(read: Read, some: seq<Issue>, inScope: LaneID -> bool, lanes: set<LaneID>): Progress {
    if some == [] then Progress(0, 0)
    else
      var last := some[|some| - 1];
      var lane := read.LaneFor(last);
      CountWithin(read, some[..|some| - 1], inScope, lanes).Plus(OneIf(lane in lanes && inScope(lane), last))
  }

  lemma {:induction false} NoneWithin(read: Read, some: seq<Issue>, inScope: LaneID -> bool)
    ensures CountWithin(read, some, inScope, {}) == Progress(0, 0)
  {
    if some != [] {
      NoneWithin(read, some[..|some| - 1], inScope);
      CountWithinNext(read, some, inScope, {});
    }
  }

  function LaneCount(read: Read, some: seq<Issue>, inScope: LaneID -> bool, lane: LaneID): Progress {
    if inScope(lane) then ProgressOf(read.MembersIn(some, lane)) else Progress(0, 0)
  }

  lemma {:induction false} OneLaneMore(
    read: Read, some: seq<Issue>, inScope: LaneID -> bool, lanes: set<LaneID>, lane: LaneID)
    requires lane !in lanes
    ensures CountWithin(read, some, inScope, lanes + {lane}) ==
      CountWithin(read, some, inScope, lanes).Plus(LaneCount(read, some, inScope, lane))
  {
    if some != [] {
      var init, last := some[..|some| - 1], some[|some| - 1];
      OneLaneMore(read, init, inScope, lanes, lane);
      CountWithinNext(read, some, inScope, lanes);
      CountWithinNext(read, some, inScope, lanes + {lane});
      LaneCountNext(read, some, inScope, lane);
      OneIssueMore(
        inScope, lanes, lane, read.LaneFor(last), last, CountWithin(read, init, inScope, lanes),
          LaneCount(read, init, inScope, lane));
    }
  }

  lemma CountWithinNext(read: Read, some: seq<Issue>, inScope: LaneID -> bool, lanes: set<LaneID>)
    requires some != []
    ensures var init, last := some[..|some| - 1], some[|some| - 1];
      CountWithin(read, some, inScope, lanes) ==
        CountWithin(read, init, inScope, lanes)
          .Plus(OneIf(read.LaneFor(last) in lanes && inScope(read.LaneFor(last)), last))
  {
  }

  lemma OneIssueMore(
    inScope: LaneID -> bool, lanes: set<LaneID>, lane: LaneID, at: LaneID, issue: Issue, narrow: Progress,
    count: Progress)
    requires lane !in lanes
    ensures narrow.Plus(count).Plus(OneIf(at in lanes + {lane} && inScope(at), issue)) ==
      narrow.Plus(OneIf(at in lanes && inScope(at), issue)).Plus(count.Plus(OneIf(inScope(lane) && at == lane, issue)))
  {
  }

  lemma LaneCountNext(read: Read, some: seq<Issue>, inScope: LaneID -> bool, lane: LaneID)
    requires some != []
    ensures var init, last := some[..|some| - 1], some[|some| - 1];
      LaneCount(read, some, inScope, lane) ==
        LaneCount(read, init, inScope, lane).Plus(OneIf(inScope(lane) && read.LaneFor(last) == lane, last))
  {
    MembersNext(read, some, lane);
    ProgressNext(read.MembersIn(some[..|some| - 1], lane), some[|some| - 1]);
  }

  lemma MembersNext(read: Read, some: seq<Issue>, lane: LaneID)
    requires some != []
    ensures var members := read.MembersIn(some[..|some| - 1], lane);
      read.MembersIn(some, lane) ==
        if read.LaneFor(some[|some| - 1]) == lane then members + [some[|some| - 1]] else members
  {
    assert read.MembersIn(some[..|some| - 1], lane) + [] == read.MembersIn(some[..|some| - 1], lane);
  }

  lemma ProgressNext(members: seq<Issue>, last: Issue)
    ensures ProgressOf(members + [last]) == ProgressOf(members).Plus(One(last))
  {
    assert (members + [last])[..|members|] == members;
  }

  lemma {:induction false} AllWithin(read: Read, some: seq<Issue>, inScope: LaneID -> bool, lanes: set<LaneID>)
    requires forall issue :: issue in some ==> read.LaneFor(issue) in lanes
    ensures CountWithin(read, some, inScope, lanes) == CountIn(read, some, inScope)
  {
    if some != [] {
      assert some == some[..|some| - 1] + [some[|some| - 1]];
      AllWithin(read, some[..|some| - 1], inScope, lanes);
    }
  }

  lemma {:induction false} LaneHasItsMember(read: Read, some: seq<Issue>, issue: Issue)
    requires issue in some
    ensures issue in read.MembersIn(some, read.LaneFor(issue))
  {
    var init, last := some[..|some| - 1], some[|some| - 1];
    assert some == init + [last];
    if issue != last {
      LaneHasItsMember(read, init, issue);
    }
  }

  lemma EveryIssueHasItsLane(p: Partition, read: Read)
    requires read.PlacedAs(p)
    ensures forall issue :: issue in read.issues ==> read.LaneFor(issue) in p.members
  {
    forall issue | issue in read.issues ensures read.LaneFor(issue) in p.members {
      LaneHasItsMember(read, read.issues, issue);
      assert p.MembersOf(read.LaneFor(issue)) == read.MembersIn(read.issues, read.LaneFor(issue));
    }
  }

  lemma LaneIsItsMembers(p: Partition, read: Read, lane: LaneID)
    requires read.PlacedAs(p) && lane in p.members
    ensures p.members[lane] == read.MembersIn(read.issues, lane)
  {
    assert p.MembersOf(lane) == read.MembersIn(read.issues, lane);
  }

  /** progress counts the scope's issues in every lane but those left. */
  ghost predicate CountedBut(p: Partition, read: Read, inScope: LaneID -> bool, left: set<LaneID>, progress: Progress) {
    left <= p.members.Keys && progress == CountWithin(read, read.issues, inScope, p.members.Keys - left)
  }

  lemma OneLeftLess(all: set<LaneID>, left: set<LaneID>, lane: LaneID)
    requires left <= all && lane in left
    ensures all - (left - {lane}) == all - left + {lane} && lane !in all - left
  {
  }

  lemma CountsTheLane(
    p: Partition, read: Read, inScope: LaneID -> bool, left: set<LaneID>, progress: Progress, lane: LaneID)
    requires read.PlacedAs(p) && CountedBut(p, read, inScope, left, progress) && lane in left
    ensures CountedBut(p, read, inScope, left - {lane}, progress.Plus(LaneCount(read, read.issues, inScope, lane)))
  {
    OneLeftLess(p.members.Keys, left, lane);
    OneLaneMore(read, read.issues, inScope, p.members.Keys - left, lane);
  }

  lemma CountedAll(p: Partition, read: Read, inScope: LaneID -> bool, progress: Progress)
    requires read.PlacedAs(p) && CountedBut(p, read, inScope, {}, progress)
    ensures progress == CountIn(read, read.issues, inScope)
  {
    assert p.members.Keys - {} == p.members.Keys;
    EveryIssueHasItsLane(p, read);
    AllWithin(read, read.issues, inScope, p.members.Keys);
  }

  lemma CountedNone(p: Partition, read: Read, inScope: LaneID -> bool)
    ensures CountedBut(p, read, inScope, p.members.Keys, Progress(0, 0))
  {
    assert p.members.Keys - p.members.Keys == {};
    NoneWithin(read, read.issues, inScope);
  }

  method CountLane(p: Partition, inScope: LaneID -> bool, lane: LaneID, ghost read: Read) returns (progress: Progress)
    requires read.PlacedAs(p) && lane in p.members
    ensures progress == LaneCount(read, read.issues, inScope, lane)
  {
    LaneIsItsMembers(p, read, lane);
    progress := Progress(0, 0);
    if inScope(lane) {
      var active;
      progress, active := CountMembers(p.members[lane]);
    }
  }

  /** Counted lane by lane, a scope's progress is that of the issues in it: the
      partition neither loses an issue nor counts one twice. */
  method ScopeProgress(p: Partition, inScope: LaneID -> bool, ghost read: Read) returns (progress: Progress)
    requires read.PlacedAs(p)
    ensures progress == CountIn(read, read.issues, inScope)
  {
    progress := Progress(0, 0);
    var left := p.members.Keys;
    CountedNone(p, read, inScope);
    while left != {}
      invariant CountedBut(p, read, inScope, left, progress)
      decreases left
    {
      var lane :| lane in left;
      var more := CountLane(p, inScope, lane, read);
      CountsTheLane(p, read, inScope, left, progress, lane);
      progress, left := progress.Plus(more), left - {lane};
    }
    CountedAll(p, read, inScope, progress);
  }
}
