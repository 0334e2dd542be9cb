// What a partition is faithful to: one lane's family reads as the whole backlog
// does, the order of a read is immaterial, and voided events count for nothing.
module EvidenceLaws {
  import opened Model
  import opened Events
  import opened Standing
  import opened StandingLaws
  import opened Evidence

  lemma {:induction false} MembersAre(read: Read, some: seq<Issue>, lane: LaneID, issue: Issue)
    ensures multiset(read.MembersIn(some, lane))[issue] ==
      if read.LaneFor(issue) == lane then multiset(some)[issue] else 0
  {
    if some != [] {
      assert some == some[..|some| - 1] + [some[|some| - 1]];
      MembersAre(read, some[..|some| - 1], lane, issue);
    }
  }

  lemma {:induction false} EventsAre(events: seq<Event>, lanes: map<ID, LaneID>, lane: LaneID, event: Event)
    ensures multiset(EventsIn(events, lanes, lane))[event] ==
      if event.issueID in lanes && lanes[event.issueID] == lane then multiset(events)[event] else 0
  {
    if events != [] {
      assert events == events[..|events| - 1] + [events[|events| - 1]];
      EventsAre(events[..|events| - 1], lanes, lane, event);
    }
  }

  lemma MemberCount(p: Partition, read: Read, lane: LaneID, issue: Issue)
    requires read.PlacedAs(p)
    ensures multiset(p.MembersOf(lane))[issue] ==
      if read.LaneFor(issue) == lane then multiset(read.issues)[issue] else 0
    ensures issue in p.MembersOf(lane) <==> issue in read.issues && read.LaneFor(issue) == lane
  {
    MembersAre(read, read.issues, lane, issue);
    assert p.MembersOf(lane) == read.MembersIn(read.issues, lane);
    assert issue in p.MembersOf(lane) <==> multiset(p.MembersOf(lane))[issue] > 0;
    assert issue in read.issues <==> multiset(read.issues)[issue] > 0;
  }

  lemma EventCount(p: Partition, read: Read, lane: LaneID, event: Event)
    requires read.PlacedAs(p)
    ensures multiset(p.EventsOf(lane))[event] ==
      if event.issueID in p.lanes && p.lanes[event.issueID] == lane then multiset(read.events)[event] else 0
  {
    EventsAre(read.events, p.lanes, lane, event);
    assert multiset(p.EventsOf(lane)) == multiset(EventsIn(read.events, p.lanes, lane));
  }

  lemma KeyedLane(p: Partition, read: Read, lane: LaneID)
    requires read.PlacedAs(p) && Keyed(multiset(read.events))
    ensures Keyed(multiset(p.EventsOf(lane)))
  {
    forall a: Event, b: Event | a in multiset(p.EventsOf(lane)) && b in multiset(p.EventsOf(lane)) &&
      a.createdAt == b.createdAt && a.id == b.id
      ensures a == b
    {
      EventCount(p, read, lane, a);
      EventCount(p, read, lane, b);
    }
  }

  ghost predicate DistinctIds(issues: seq<Issue>) {
    forall a, b :: a in issues && b in issues && a.id == b.id ==> a == b
  }

  lemma LaneOfIssue(read: Read, issue: Issue)
    requires DistinctIds(read.issues) && issue in read.issues
    ensures issue.id in read.LanesOf(read.issues) && read.LanesOf(read.issues)[issue.id] == read.LaneFor(issue)
  {
    LanesAre(read, read.issues, issue.id);
  }

  /** Same members, same events: the same standings may be answered. */
  lemma SameAnswers(a: Lane, b: Lane, freshness: Freshness, local: LocalCheckouts, st: Standing)
    requires forall issue :: issue in a.members <==> issue in b.members
    requires a.events == b.events
    ensures Answers(st, a.members, a.events, freshness, local) <==> Answers(st, b.members, b.events, freshness, local)
    ensures TenureOf(a.members, a.events, freshness, local) == TenureOf(b.members, b.events, freshness, local)
  {
    assert Unfinished(a.members) <==> Unfinished(b.members);
  }

  lemma SameEvents(a: seq<Event>, b: seq<Event>)
    requires OldestFirst(a) && OldestFirst(b) && Keyed(multiset(a))
    requires forall event :: multiset(a)[event] == multiset(b)[event]
    ensures a == b
  {
    assert multiset(a) == multiset(b);
    OrderIsUnique(a, b);
  }

  // ---- One lane's family ----

  /** The family is part of the backlog, agrees with it on what its issues sit
      under, and holds every member of the lane and all their events. Its other
      lanes may be part-read. */
  ghost predicate WholeAtLane(family: Read, backlog: Read, lane: LaneID) {
    && (forall issue :: issue in family.issues ==> issue in backlog.issues)
    && (forall issue :: issue in family.issues ==>
          (issue.id in family.parentByChild <==> issue.id in backlog.parentByChild) &&
          (issue.id in backlog.parentByChild ==> family.parentByChild[issue.id] == backlog.parentByChild[issue.id]))
    && (forall id ::
      id in family.parentTypes && id in backlog.parentTypes ==> family.parentTypes[id] == backlog.parentTypes[id])
    && (forall issue :: issue in backlog.issues && backlog.LaneFor(issue) == lane ==> issue in family.issues)
    && (forall issue, event: Event ::
      issue in backlog.issues && backlog.LaneFor(issue) == lane && event.issueID == issue.id ==>
          multiset(family.events)[event] == multiset(backlog.events)[event])
  }

  lemma FamilyPlacesAlike(family: Read, backlog: Read, lane: LaneID, issue: Issue)
    requires WholeAtLane(family, backlog, lane) && issue in family.issues
    requires backlog.Complete() && family.Complete()
    ensures family.LaneFor(issue) == backlog.LaneFor(issue)
  {
    assert !backlog.Orphaned(issue) && !family.Orphaned(issue);
  }

  lemma FamilyFilesAlike(family: Read, backlog: Read, lane: LaneID, p: Partition, q: Partition, event: Event)
    requires DistinctIds(backlog.issues) && WholeAtLane(family, backlog, lane)
    requires backlog.Complete() && family.Complete() && backlog.PlacedAs(p) && family.PlacedAs(q)
    ensures multiset(q.EventsOf(lane))[event] == multiset(p.EventsOf(lane))[event]
  {
    EventCount(p, backlog, lane, event);
    EventCount(q, family, lane, event);
    LanesAre(backlog, backlog.issues, event.issueID);
    LanesAre(family, family.issues, event.issueID);
    if event.issueID in p.lanes && p.lanes[event.issueID] == lane {
      var issue :|
        issue in backlog.issues && issue.id == event.issueID && p.lanes[event.issueID] == backlog.LaneFor(issue);
      FamilyPlacesAlike(family, backlog, lane, issue);
      LaneOfIssue(family, issue);
    } else if event.issueID in q.lanes && q.lanes[event.issueID] == lane {
      var issue :|
        issue in family.issues && issue.id == event.issueID && q.lanes[event.issueID] == family.LaneFor(issue);
      FamilyPlacesAlike(family, backlog, lane, issue);
      LaneOfIssue(backlog, issue);
    }
  }

  lemma FamilyHasTheMembers(family: Read, backlog: Read, lane: LaneID, p: Partition, q: Partition, issue: Issue)
    requires WholeAtLane(family, backlog, lane)
    requires backlog.Complete() && family.Complete() && backlog.PlacedAs(p) && family.PlacedAs(q)
    ensures issue in q.MembersOf(lane) <==> issue in p.MembersOf(lane)
  {
    MemberCount(p, backlog, lane, issue);
    MemberCount(q, family, lane, issue);
    if issue in family.issues {
      FamilyPlacesAlike(family, backlog, lane, issue);
    }
  }

  /** Reading one lane's family answers for that lane exactly what deriving the
      whole backlog answers, although the family's other lanes may be part-read. */
  lemma OneLaneIsTheBacklog(
    family: Read, backlog: Read, lane: LaneID, p: Partition, q: Partition, freshness: Freshness, local: LocalCheckouts,
    st: Standing)
    requires DistinctIds(backlog.issues) && Keyed(multiset(backlog.events)) && WholeAtLane(family, backlog, lane)
    requires backlog.Complete() && family.Complete() && backlog.PlacedAs(p) && family.PlacedAs(q)
    ensures q.EventsOf(lane) == p.EventsOf(lane)
    ensures Answers(st, q.MembersOf(lane), q.EventsOf(lane), freshness, local) <==>
      Answers(st, p.MembersOf(lane), p.EventsOf(lane), freshness, local)
    ensures TenureOf(q.MembersOf(lane), q.EventsOf(lane), freshness, local) ==
      TenureOf(p.MembersOf(lane), p.EventsOf(lane), freshness, local)
  {
    forall event: Event ensures multiset(p.EventsOf(lane))[event] == multiset(q.EventsOf(lane))[event] {
      FamilyFilesAlike(family, backlog, lane, p, q, event);
    }
    forall issue ensures issue in q.MembersOf(lane) <==> issue in p.MembersOf(lane) {
      FamilyHasTheMembers(family, backlog, lane, p, q, issue);
    }
    KeyedLane(p, backlog, lane);
    SameEvents(p.EventsOf(lane), q.EventsOf(lane));
    SameAnswers(q.Lane(lane), p.Lane(lane), freshness, local, st);
  }

  lemma FamilyLane(family: Read, backlog: Read, issue: Issue, p: Partition, q: Partition)
    requires DistinctIds(backlog.issues) && issue in backlog.issues &&
      WholeAtLane(family, backlog, backlog.LaneFor(issue))
    requires backlog.Complete() && family.Complete() && backlog.PlacedAs(p) && family.PlacedAs(q)
    ensures issue.id in p.lanes && p.lanes[issue.id] == backlog.LaneFor(issue)
    ensures issue.id in q.lanes && q.lanes[issue.id] == backlog.LaneFor(issue)
  {
    FamilyPlacesAlike(family, backlog, backlog.LaneFor(issue), issue);
    LaneOfIssue(backlog, issue);
    LaneOfIssue(family, issue);
  }

  /** Reading an issue's lane from a family picks the lane the whole backlog files the
      issue in, and may answer for it exactly what deriving the backlog may. */
  lemma NewLaneAnswersForTheIssue(
    family: Read, backlog: Read, issue: Issue, lane: Lane, p: Partition, standings: Standings, freshness: Freshness,
    local: LocalCheckouts)
    requires DistinctIds(backlog.issues) && Keyed(multiset(backlog.events))
    requires issue in backlog.issues && WholeAtLane(family, backlog, backlog.LaneFor(issue))
    requires backlog.Complete() && family.Complete() && backlog.PlacedAs(p) && IsNewLane(issue.id, family, lane)
    requires Derived(standings, p, freshness, local)
    ensures issue.id in p.lanes && lane.id == p.lanes[issue.id] == backlog.LaneFor(issue)
    ensures lane.events == p.EventsOf(lane.id)
    ensures Answers(Of(standings, lane.id), lane.members, lane.events, freshness, local)
    ensures TenureOf(lane.members, lane.events, freshness, local) ==
      TenureOf(p.MembersOf(lane.id), p.EventsOf(lane.id), freshness, local)
  {
    var q :| family.PlacedAs(q) && issue.id in q.lanes && lane == q.Lane(q.lanes[issue.id]);
    FamilyLane(family, backlog, issue, p, q);
    DerivedAnswers(standings, p, freshness, local, lane.id);
    OneLaneIsTheBacklog(family, backlog, lane.id, p, q, freshness, local, Of(standings, lane.id));
  }

  /** A lane the derivation gives no standing to has no member, and is unclaimed. */
  lemma DerivedAnswers(standings: Standings, p: Partition, freshness: Freshness, local: LocalCheckouts, lane: LaneID)
    requires Derived(standings, p, freshness, local)
    ensures Answers(Of(standings, lane), p.MembersOf(lane), p.EventsOf(lane), freshness, local)
  {
  }

  // ---- The family the store reads ----

  /** The parent the backlog files an issue under is one the relations file it under;
      restored data may hold others. */
  ghost predicate FiledBy(backlog: Read, relations: seq<Relation>) {
    forall issue :: issue in backlog.issues && issue.id in backlog.parentByChild ==>
      FiledIn(relations, issue.id, backlog.parentByChild[issue.id])
  }

  /** family is the backlog cut down to some of its issues: those, what they sit under,
      the types of what they sit under, and their events. */
  ghost predicate CutTo(family: Read, backlog: Read, ids: set<ID>) {
    && (forall issue :: issue in family.issues <==> issue in backlog.issues && issue.id in ids)
    && (forall issue :: issue in family.issues ==>
          (issue.id in family.parentByChild <==> issue.id in backlog.parentByChild) &&
          (issue.id in backlog.parentByChild ==> family.parentByChild[issue.id] == backlog.parentByChild[issue.id]))
    && (forall id ::
      id in family.parentTypes ==> id in backlog.parentTypes && family.parentTypes[id] == backlog.parentTypes[id])
    && (forall issue :: issue in family.issues && issue.id in backlog.parentByChild ==>
          backlog.parentByChild[issue.id] in family.parentTypes)
    && (forall event ::
      multiset(family.events)[event] == if event.issueID in ids then multiset(backlog.events)[event] else 0)
  }

  /** An issue of one's own lane is filed beside one, or is one's own self. */
  lemma LaneMateIsFamily(backlog: Read, relations: seq<Relation>, issue: Issue, mate: Issue)
    requires FiledBy(backlog, relations) && issue in backlog.issues && mate in backlog.issues
    requires !backlog.Orphaned(issue) && !backlog.Orphaned(mate)
    requires backlog.LaneFor(mate) == backlog.LaneFor(issue)
    ensures mate.id in FamilyIds(issue.id, relations)
  {
    LanesAreTwoShapes(issue, backlog.ParentOf(issue), mate, backlog.ParentOf(mate));
    FamilyIs(issue.id, relations, mate.id);
    if mate.id != issue.id {
      var parent := backlog.parentByChild[issue.id];
      assert FiledIn(relations, issue.id, parent) && FiledIn(relations, mate.id, parent);
    }
  }

  /** The backlog cut to an issue's family is whole at the issue's lane, and misses
      nothing a partition of it needs. */
  lemma LaneFamilyIsWhole(family: Read, backlog: Read, relations: seq<Relation>, issue: Issue)
    requires backlog.Complete() && FiledBy(backlog, relations) && issue in backlog.issues
    requires CutTo(family, backlog, FamilyIds(issue.id, relations))
    ensures WholeAtLane(family, backlog, backlog.LaneFor(issue)) && family.Complete()
  {
    forall mate | mate in backlog.issues && backlog.LaneFor(mate) == backlog.LaneFor(issue)
      ensures mate.id in FamilyIds(issue.id, relations)
    {
      LaneMateIsFamily(backlog, relations, issue, mate);
    }
    CutIsComplete(family, backlog, FamilyIds(issue.id, relations));
  }

  lemma CutIsComplete(family: Read, backlog: Read, ids: set<ID>)
    requires backlog.Complete() && CutTo(family, backlog, ids)
    ensures family.Complete()
  {
    forall event | event in family.events ensures exists issue :: issue in family.issues && issue.id == event.issueID {
      assert multiset(family.events)[event] > 0;
      assert event in multiset(backlog.events);
      assert event in backlog.events;
      var issue :| issue in backlog.issues && issue.id == event.issueID;
      assert issue in family.issues;
    }
  }

  // ---- The order of a read ----

  ghost predicate Rearranged(a: Read, b: Read) {
    multiset(a.issues) == multiset(b.issues) && multiset(a.events) == multiset(b.events) &&
    a.parentByChild == b.parentByChild && a.parentTypes == b.parentTypes
  }

  /** The standings do not depend on the order issues or events were read in. */
  lemma ReadOrderIsImmaterial(
    a: Read, b: Read, p: Partition, q: Partition, lane: LaneID, freshness: Freshness, local: LocalCheckouts,
    st: Standing)
    requires Rearranged(a, b) && DistinctIds(a.issues) && Keyed(multiset(a.events))
    requires a.PlacedAs(p) && b.PlacedAs(q)
    ensures p.EventsOf(lane) == q.EventsOf(lane)
    ensures Answers(st, p.MembersOf(lane), p.EventsOf(lane), freshness, local) <==>
      Answers(st, q.MembersOf(lane), q.EventsOf(lane), freshness, local)
  {
    forall event: Event ensures multiset(p.EventsOf(lane))[event] == multiset(q.EventsOf(lane))[event] {
      SameEventCount(a, b, p, q, lane, event);
    }
    forall issue ensures issue in p.MembersOf(lane) <==> issue in q.MembersOf(lane) {
      SameMember(a, b, p, q, lane, issue);
    }
    KeyedLane(p, a, lane);
    SameEvents(p.EventsOf(lane), q.EventsOf(lane));
    SameAnswers(p.Lane(lane), q.Lane(lane), freshness, local, st);
  }

  lemma SameEventCount(a: Read, b: Read, p: Partition, q: Partition, lane: LaneID, event: Event)
    requires Rearranged(a, b) && DistinctIds(a.issues) && a.PlacedAs(p) && b.PlacedAs(q)
    ensures multiset(p.EventsOf(lane))[event] == multiset(q.EventsOf(lane))[event]
  {
    SameLanes(a, b);
    EventCount(p, a, lane, event);
    EventCount(q, b, lane, event);
  }

  lemma SameMember(a: Read, b: Read, p: Partition, q: Partition, lane: LaneID, issue: Issue)
    requires Rearranged(a, b) && a.PlacedAs(p) && b.PlacedAs(q)
    ensures issue in p.MembersOf(lane) <==> issue in q.MembersOf(lane)
  {
    MemberCount(p, a, lane, issue);
    MemberCount(q, b, lane, issue);
    assert issue in multiset(a.issues) <==> issue in multiset(b.issues);
  }

  lemma SameLanes(a: Read, b: Read)
    requires Rearranged(a, b) && DistinctIds(a.issues)
    ensures a.LanesOf(a.issues) == b.LanesOf(b.issues)
  {
    forall issue ensures issue in a.issues <==> issue in b.issues {
      assert issue in multiset(a.issues) <==> issue in multiset(b.issues);
    }
    var lanes, lanes' := a.LanesOf(a.issues), b.LanesOf(b.issues);
    forall id ensures (id in lanes <==> id in lanes') && (id in lanes ==> lanes[id] == lanes'[id]) {
      LanesAre(a, a.issues, id);
      LanesAre(b, b.issues, id);
      if id in lanes {
        var issue :| issue in a.issues && issue.id == id && lanes[id] == a.LaneFor(issue);
        var issue' :| issue' in b.issues && issue'.id == id && lanes'[id] == b.LaneFor(issue');
        assert issue == issue';
      }
    }
  }

  // ---- Voided events ----

  /** A backlog from which every event of a proven-gone checkout was erased
      derives the same standings, lane by lane. */
  lemma ErasedBacklogDerivesAlike(
    read: Read, p: Partition, q: Partition, lane: LaneID, freshness: Freshness, local: LocalCheckouts, st: Standing)
    requires Keyed(multiset(read.events)) && read.PlacedAs(p)
    requires read.(events := Admissible(read.events, local)).PlacedAs(q)
    ensures q.EventsOf(lane) == Admissible(p.EventsOf(lane), local)
    ensures Answers(st, p.MembersOf(lane), p.EventsOf(lane), freshness, local) <==>
      Answers(st, q.MembersOf(lane), q.EventsOf(lane), freshness, local)
  {
    var erased := read.(events := Admissible(read.events, local));
    var kept := Admissible(p.EventsOf(lane), local);
    AdmissibleSorted(p.EventsOf(lane), local);
    forall event: Event ensures multiset(q.EventsOf(lane))[event] == multiset(kept)[event] {
      ErasedCount(read, p, q, lane, local, event);
    }
    KeyedErased(read, local);
    KeyedLane(q, erased, lane);
    SameEvents(q.EventsOf(lane), kept);
    VoidingIsErasing(st, p.MembersOf(lane), p.EventsOf(lane), freshness, local);
    ErasedMembers(read, p, q, lane, local);
    SameAnswers(LaneReading(lane, p.MembersOf(lane), kept), q.Lane(lane), freshness, local, st);
  }

  lemma ErasedCount(read: Read, p: Partition, q: Partition, lane: LaneID, local: LocalCheckouts, event: Event)
    requires read.PlacedAs(p) && read.(events := Admissible(read.events, local)).PlacedAs(q)
    ensures multiset(q.EventsOf(lane))[event] == multiset(Admissible(p.EventsOf(lane), local))[event]
  {
    EventCount(p, read, lane, event);
    EventCount(q, read.(events := Admissible(read.events, local)), lane, event);
    AdmissibleKeeps(p.EventsOf(lane), local, event);
    AdmissibleKeeps(read.events, local, event);
    SameLanesErased(read, local);
  }

  lemma KeyedErased(read: Read, local: LocalCheckouts)
    requires Keyed(multiset(read.events))
    ensures Keyed(multiset(Admissible(read.events, local)))
  {
    var kept := multiset(Admissible(read.events, local));
    forall a: Event, b: Event | a in kept && b in kept && a.createdAt == b.createdAt && a.id == b.id ensures a == b {
      AdmissibleKeeps(read.events, local, a);
      AdmissibleKeeps(read.events, local, b);
    }
  }

  lemma ErasedMembers(read: Read, p: Partition, q: Partition, lane: LaneID, local: LocalCheckouts)
    requires read.PlacedAs(p) && read.(events := Admissible(read.events, local)).PlacedAs(q)
    ensures forall issue :: issue in p.MembersOf(lane) <==> issue in q.MembersOf(lane)
  {
    var erased := read.(events := Admissible(read.events, local));
    forall issue ensures issue in p.MembersOf(lane) <==> issue in q.MembersOf(lane) {
      MemberCount(p, read, lane, issue);
      MemberCount(q, erased, lane, issue);
      assert read.LaneFor(issue) == erased.LaneFor(issue);
    }
  }

  lemma SameLanesErased(read: Read, local: LocalCheckouts)
    ensures read.LanesOf(read.issues) == read.(events := Admissible(read.events, local)).LanesOf(read.issues)
  {
    PlacesAlike(read, read.(events := Admissible(read.events, local)), read.issues);
  }

  lemma {:induction false} PlacesAlike(a: Read, b: Read, some: seq<Issue>)
    requires a.parentByChild == b.parentByChild && a.parentTypes == b.parentTypes
    ensures a.LanesOf(some) == b.LanesOf(some)
  {
    if some != [] {
      PlacesAlike(a, b, some[..|some| - 1]);
    }
  }
}
