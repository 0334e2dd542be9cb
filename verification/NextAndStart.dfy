// `lit next` and `lit start` agree: what routing hands over, the hold gate passes.
module NextAndStart {
  import opened Model
  import opened Readiness
  import opened Routing
  import opened RoutingLaws
  import opened HoldGate
  import opened Events
  import opened Evidence
  import EvidenceLaws

  /** What a run of `lit next` gathered: rows that are issues of the evidence it read,
      each under the parent the evidence files it under, and the standings derived
      from that evidence. */
  ghost predicate Gathered(w: World, p: Partition, facts: CheckoutFacts) {
    && w.read.Complete() && w.read.PlacedAs(p) && Derived(w.standings, p, facts.freshness, facts.local)
    && EvidenceLaws.DistinctIds(w.read.issues) && Keyed(multiset(w.read.events))
    && (forall row ::
      row in w.rows ==> row.issue in w.read.issues && ParentOf(w.details, row.Id()) == w.read.ParentOf(row.issue))
  }

  lemma GateLetsPass(
    issue: Issue, history: seq<Event>, members: seq<Issue>, events: seq<Event>, facts: CheckoutFacts, action: Action,
    self: Holder)
    requires Holding(members, events, facts, self) != LaneHeldForeign
    ensures Authorized(issue, history, members, events, facts, action, self, false) != Refused(TakeoverUnconfirmed)
  {
    var plan := PlanOf(issue, history, action, self);
    assert plan.Refused? ==> plan.refusal != TakeoverUnconfirmed;
  }

  /** The lane the gate reads for a row, out of the row's own family, is the lane
      routing placed the row in, and holds or not for self as routing read it. */
  lemma GateReadsRoutingsLane(w: World, family: Read, p: Partition, lane: Lane, facts: CheckoutFacts, row: Row)
    requires Gathered(w, p, facts) && row in w.rows
    requires family.Complete() && IsNewLane(row.Id(), family, lane)
    requires EvidenceLaws.WholeAtLane(family, w.read, w.read.LaneFor(row.issue))
    ensures lane.id == w.LaneOfRow(row)
    ensures Holding(lane.members, lane.events, facts, w.self) == RelationOf(w.StandingFor(row), w.self)
  {
    EvidenceLaws.NewLaneAnswersForTheIssue(family, w.read, row.issue, lane, p, w.standings,
      facts.freshness, facts.local);
  }

  /** On one evidence, clock and enumeration, a start of any row `lit next` hands
      over is never asked to confirm a takeover, although the gate reads only the
      lane it finds for the row among the issues the relations file beside it, and
      routing read the whole backlog. */
  lemma NextServesWhatStartAllows(
    w: World, selects: Row -> bool, family: Read, relations: seq<Relation>, p: Partition, lane: Lane,
    facts: CheckoutFacts, history: seq<Event>, assignee: string, row: Row)
    requires w.RouteNext(selects).Served() == Some(row) && Gathered(w, p, facts)
    requires EvidenceLaws.FiledBy(w.read, relations)
    requires EvidenceLaws.CutTo(family, w.read, FamilyIds(row.Id(), relations)) && IsNewLane(row.Id(), family, lane)
    ensures Authorized(row.issue, history, lane.members, lane.events, facts, Start(assignee, false), w.self, false)
      != Refused(TakeoverUnconfirmed)
  {
    ServedIsServable(w, selects);
    EvidenceLaws.LaneFamilyIsWhole(family, w.read, relations, row.issue);
    GateReadsRoutingsLane(w, family, p, lane, facts, row);
    GateLetsPass(row.issue, history, lane.members, lane.events, facts, Start(assignee, false), w.self);
  }
}
