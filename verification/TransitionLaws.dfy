// What a transition refuses, writes and stamps, over the ticket's own fields and the
// instants of its lane.
module TransitionLaws {
  import opened Model
  import opened Events
  import opened Standing
  import opened StandingLaws
  import opened HoldGate
  import opened HoldGateLaws
  import Text

  // ---- Plans ----

  lemma UnwritableIs(assignee: string)
    ensures Unwritable(assignee) <==>
      exists c :: c in Text.TrimSpace(assignee) &&
        c in {',', '\n', '\r', '\U{000b}', '\U{000c}', '\U{0085}', '\U{2028}', '\U{2029}'}
  {
  }

  /** A transition is refused exactly on an epic, on a ticket out of the flow, for a phase
      move out of progress, and for a start under a name no filter could select; and the
      refusal says which, in the order these are asked. */
  lemma RefusesExactly(issue: Issue, history: seq<Event>, action: Action, taker: Holder)
    ensures var plan := PlanOf(issue, history, action, taker);
      && (plan.Refused? <==>
        issue.issueType == Epic || issue.frozen || (action.SetPhase? && issue.state != InProgress) ||
        (action.Start? && Unwritable(action.assignee)))
      && (plan.Refused? && action.SetPhase? ==>
        plan.refusal == if issue.issueType != Epic && issue.state == InProgress then FrozenIssue else NoPhase)
      && (plan.Refused? && !action.SetPhase? ==>
        plan.refusal ==
          if issue.issueType == Epic then ContainerAction else if issue.frozen then FrozenIssue else UnwritableAssignee)
  {
  }

  /** A plan writes the state its action ends in, a start the trimmed assignee it names,
      and nothing else of the ticket. */
  lemma PlanWrites(issue: Issue, history: seq<Event>, action: Action, taker: Holder)
    requires PlanOf(issue, history, action, taker).Ok?
    ensures var updated := PlanOf(issue, history, action, taker).value.updated;
      updated == issue.(
        state := match action
          case Start(_, _) => InProgress
          case Done => Closed
          case Close => Closed
          case Reopen => Open
          case SetPhase(_) => issue.state,
        assignee := if action.Start? then Text.TrimSpace(action.assignee) else issue.assignee)
  {
  }

  /** The ticket is in progress, and its record names this taker and this assignee. */
  predicate TakenAs(issue: Issue, history: seq<Event>, assignee: string, taker: Holder) {
    issue.state == InProgress && issue.assignee == Text.TrimSpace(assignee) &&
    Latest(history).Some? && HolderOf(Latest(history).value) == taker
  }

  /** A plan records something exactly when it moves something. */
  lemma RecordsExactly(issue: Issue, history: seq<Event>, action: Action, taker: Holder)
    requires PlanOf(issue, history, action, taker).Ok?
    ensures PlanOf(issue, history, action, taker).value.Records() <==>
      match action
      case Start(assignee, reclaim) => reclaim || !TakenAs(issue, history, assignee, taker)
      case Done => issue.state != Closed
      case Close => issue.state != Closed
      case Reopen => issue.state != Open
      case SetPhase(to) => PhaseIn(history) != to
  {
  }

  /** A handover is a start of a ticket somebody took before, under another taker or
      another assignee. */
  lemma HandoverIs(issue: Issue, history: seq<Event>, action: Action, taker: Holder)
    requires PlanOf(issue, history, action, taker).Ok?
    ensures var plan := PlanOf(issue, history, action, taker).value;
      plan.prior.HandoverTo(plan.post).Some? <==>
        action.Start? && Latest(history).Some? &&
        (HolderOf(Latest(history).value) != taker || issue.assignee != Text.TrimSpace(action.assignee))
  {
  }

  // ---- The gate ----

  /** A lane is ours exactly when an identified checkout holds it and asks; any other
      hold is foreign. */
  lemma OursIs(st: Standing, self: Holder)
    ensures RelationOf(st, self) == LaneOurs <==>
      st.Held? && st.tenure.holder == self && self.checkout != Pair("", "")
    ensures RelationOf(st, self) == LaneHeldForeign <==>
      st.Held? && (st.tenure.holder != self || self.checkout == Pair("", ""))
  {
  }

  /** A start is always owed a check, and anything else that records. */
  predicate Owed(issue: Issue, history: seq<Event>, action: Action, self: Holder) {
    var plan := PlanOf(issue, history, action, self);
    plan.Ok? && (action.Start? || plan.value.Records())
  }

  /** A passed call took a hold over exactly when it was owed a check and the lane is
      foreign, for a checkout its own enumeration does not void; it took none it was not
      told to cross. */
  lemma TookExactlyForeign(
    st: Standing, issue: Issue, history: seq<Event>, members: seq<Issue>, events: seq<Event>, facts: CheckoutFacts,
    action: Action, self: Holder, crossed: bool)
    requires Answers(st, members, events, facts.freshness, facts.local)
    requires Authorized(issue, history, members, events, facts, action, self, crossed).Ok?
    ensures Authorized(issue, history, members, events, facts, action, self, crossed).value.took ==>
      crossed && RelationOf(st, self) == LaneHeldForeign
    ensures !facts.local.Void(self.checkout) && RelationOf(st, self) == LaneHeldForeign ==>
      Owed(issue, history, action, self) ==>
        Authorized(issue, history, members, events, facts, action, self, crossed).value.took
  {
    HoldingIsRelation(st, members, events, facts, self);
    if Present(self.checkout) && LastTaker(events) == Some(self) {
      LastTakerHolds(members, events, facts, self);
    }
  }

  /** What a passed call writes is the action asked for, or, for a start of what one has
      already started in a lane another took last, that start as a reclaim. */
  lemma ReclaimsExactly(
    issue: Issue, history: seq<Event>, members: seq<Issue>, events: seq<Event>, facts: CheckoutFacts, action: Action,
    self: Holder, crossed: bool)
    requires Authorized(issue, history, members, events, facts, action, self, crossed).Ok?
    ensures Authorized(issue, history, members, events, facts, action, self, crossed).value.action ==
      if action.Start? && TakenAs(issue, history, action.assignee, self) && LastTaker(events) != Some(self)
        then Start(action.assignee, true)
      else action
  {
    RecordsExactly(issue, history, action, self);
  }

  /** The other verbs ask nobody: a close or a reopen of a ticket in the flow is recorded
      whoever holds its lane. */
  lemma UngatedLands(lane: LaneState, req: Request)
    requires req.member < |lane.members| && (req.action.Close? || req.action.Reopen?)
    ensures var issue := lane.members[req.member];
      Recorded(lane, req).Some? <==>
        issue.issueType != Epic && !issue.frozen && issue.state != if req.action.Close? then Closed else Open
  {
    var issue := lane.members[req.member];
    RefusesExactly(issue, History(lane.events, issue.id), req.action, req.Self());
    if PlanOf(issue, History(lane.events, issue.id), req.action, req.Self()).Ok? {
      RecordsExactly(issue, History(lane.events, issue.id), req.action, req.Self());
    }
  }

  /** A start, a done and a phase move are recorded in no lane another holds, unless they
      confirm a takeover. */
  lemma GatedWaits(lane: LaneState, req: Request, st: Standing)
    requires req.member < |lane.members| && !req.action.Close? && !req.action.Reopen?
    requires Answers(st, lane.members, lane.events, req.facts.freshness, req.facts.local)
    requires RelationOf(st, req.Self()) == LaneHeldForeign && !req.facts.local.Void(req.checkout) && !req.crossed
    ensures Recorded(lane, req).None?
  {
    var issue := lane.members[req.member];
    var plan := PlanOf(issue, History(lane.events, issue.id), req.action, req.Self());
    if plan.Ok? && (req.action.Start? || plan.value.Records()) {
      GateRefusesExactlyForeign(
        st, issue, History(lane.events, issue.id), lane.members, lane.events, req.facts, req.action, req.Self());
    }
  }

  // ---- Stamps ----

  lemma {:induction false} NewestInstantIs(events: seq<Event>)
    ensures NewestInstant(events) >= 0
    ensures NewestInstant(events) == 0 || exists event :: event in events && event.createdAt == NewestInstant(events)
  {
    if events != [] {
      var init, last := events[..|events| - 1], events[|events| - 1];
      assert events == init + [last];
      NewestInstantIs(init);
    }
  }

  /** The clock reads later than the zero instant, the lane's events and the rest of the
      family's. */
  ghost predicate ClockIsPast(lane: LaneState, req: Request) {
    0 < req.clock && req.elsewhere < req.clock && forall event :: event in lane.events ==> event.createdAt < req.clock
  }

  /** The instant is one past the newest of these. */
  ghost predicate OnePastTheNewest(lane: LaneState, req: Request, at: int) {
    && 0 < at && req.elsewhere < at && (forall event :: event in lane.events ==> event.createdAt < at)
    && (at == 1 || at == req.elsewhere + 1 || exists event :: event in lane.events && at == event.createdAt + 1)
  }

  lemma StampIs(lane: LaneState, req: Request)
    ensures ClockIsPast(lane, req) ==> Stamp(lane, req) == req.clock
    ensures !ClockIsPast(lane, req) ==> OnePastTheNewest(lane, req, Stamp(lane, req))
  {
    NewestInstantIs(lane.events);
  }

  /** A recorded call appends one event: by whom, of what and as what it was asked for,
      stamped by the clock when that is past all it was planned against, and otherwise
      one past the newest of it. */
  lemma RecordsOneEvent(lane: LaneState, req: Request)
    requires req.member < |lane.members| && Recorded(lane, req).Some?
    ensures var after := Step(lane, req).events;
      |after| == |lane.events| + 1 && after[..|lane.events|] == lane.events &&
      var event := after[|lane.events|];
      event.id == req.eventID && event.issueID == lane.members[req.member].id &&
      event.actor == req.actor && event.attribution == req.checkout &&
      event.action == (match req.action
        case Start(_, _) => "start"
        case Done => "done"
        case Close => "close"
        case Reopen => "reopen"
        case SetPhase(_) => "phase") &&
      if ClockIsPast(lane, req) then event.createdAt == req.clock
      else OnePastTheNewest(lane, req, event.createdAt)
  {
    RecordedWrites(lane, req);
    StampIs(lane, req);
  }

  lemma AppendedActs(events: seq<Event>, event: Event)
    ensures HolderOf(event) in Activity(events + [event])
    ensures Activity(events + [event])[HolderOf(event)] == event.createdAt
  {
    assert (events + [event])[..|events|] == events;
  }

  lemma AppendedTakes(events: seq<Event>, event: Event, local: LocalCheckouts)
    requires Establishes(event.action) && !local.Void(event.attribution)
    requires forall e :: e in events ==> e.createdAt < event.createdAt
    ensures Admissible(events + [event], local) == Admissible(events, local) + [event]
    ensures Latest(Admissible(events + [event], local)) == Some(event)
  {
    var kept := Admissible(events, local);
    AdmissibleLast(events, event, local);
    forall e | e in kept ensures CompareRecency(e, event) < 0 {
      AdmissibleKeeps(events, local, e);
    }
    NewestIsLatest(kept, event);
  }

  /** What the stamp is for: whoever starts a ticket on a clock past its history holds the
      lane from that instant, for the whole window, to any reader that does not know the
      checkout gone; and past the window just while its worktree is locked. */
  lemma StartHoldsForTheWindow(lane: LaneState, req: Request, freshness: Freshness, local: LocalCheckouts)
    requires req.member < |lane.members| && req.action.Start? && Recorded(lane, req).Some?
    requires ClockIsPast(lane, req) && !local.Void(req.checkout)
    ensures var after := Step(lane, req);
      TenureOf(after.members, after.events, freshness, local) ==
        if freshness.now - req.clock <= freshness.window || local.PresenceOf(req.checkout) == Locked
          then Some(Tenure(req.Self(), req.clock, req.clock))
        else None
  {
    RecordedWrites(lane, req);
    StampIs(lane, req);
    var (action, plan) := Recorded(lane, req).value;
    var event := EventOf(lane, req, action);
    AppendedTakes(lane.events, event, local);
    AppendedActs(Admissible(lane.events, local), event);
    StartedIsUnfinished(lane, req);
  }

  lemma StartedIsUnfinished(lane: LaneState, req: Request)
    requires req.member < |lane.members| && req.action.Start? && Recorded(lane, req).Some?
    ensures Unfinished(Step(lane, req).members)
  {
    var (action, plan) := Recorded(lane, req).value;
    var issue := lane.members[req.member];
    RefusesExactly(issue, History(lane.events, issue.id), action, req.Self());
    PlanWrites(issue, History(lane.events, issue.id), action, req.Self());
    assert lane.members[req.member := plan.updated][req.member] == plan.updated && plan.updated.InPlay();
  }
}
