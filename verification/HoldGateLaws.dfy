// What the gate and the plan keep, over one transition and over whole runs.
module HoldGateLaws {
  import opened Model
  import opened Events
  import opened Standing
  import opened StandingLaws
  import opened HoldGate
  import Text

  // ---- The fast path ----

  /** Self took the lane last, unvoided: whoever holds it is self. */
  lemma LastTakerHolds(members: seq<Issue>, events: seq<Event>, facts: CheckoutFacts, self: Holder)
    requires LastTaker(events) == Some(self)
    ensures var tenure := TenureOf(members, events, facts.freshness, facts.local);
      tenure.Some? ==> (tenure.value.holder == self <==> !facts.local.Void(self.checkout))
  {
    if facts.local.Void(self.checkout) {
      if Latest(Admissible(events, facts.local)).Some? {
        var i := LatestIsNewestTaking(events, facts.local);
      }
    } else {
      LatestSurvives(events, facts.local);
    }
  }

  /** The gate's shortcut answers as the full derivation would, for every clock and
      enumeration, except when the enumeration voids the very checkout that asks while
      another holder meets the four legs over the lane's history: then the derivation
      calls the lane foreign, and the shortcut does not ask it. */
  lemma FastPathAgrees(st: Standing, members: seq<Issue>, events: seq<Event>, facts: CheckoutFacts, self: Holder)
    requires OldestFirst(events) && Keyed(multiset(events))
    requires Answers(st, members, events, facts.freshness, facts.local)
    requires Present(self.checkout) && LastTaker(events) == Some(self)
    ensures RelationOf(st, self) == LaneHeldForeign <==>
      facts.local.Void(self.checkout) && exists t :: Holds(members, events, facts.freshness, facts.local, t)
  {
    LastTakerHolds(members, events, facts, self);
    var tenure := TenureOf(members, events, facts.freshness, facts.local);
    if tenure.Some? {
      HeldIsTheFourLegs(members, events, facts.freshness, facts.local, tenure.value);
    }
    if t :| Holds(members, events, facts.freshness, facts.local, t) {
      HeldIsTheFourLegs(members, events, facts.freshness, facts.local, t);
    }
  }

  /** The failing case is real: git calls the asking checkout's own record prunable,
      and another checkout's older start still stands. */
  lemma FastPathMissesOwnVoid()
    returns (records: seq<WorktreeRecord>, members: seq<Issue>, events: seq<Event>, facts: CheckoutFacts, self: Holder)
    ensures facts.local == Enumerated(self.checkout.workspace, records)
    ensures Present(self.checkout) && WorktreeRecord(self.checkout.stream, true, false, false) in records
    ensures LastTaker(events) == Some(self) && Holding(members, events, facts, self) == LaneHeldForeign
  {
    var here, there: Attribution := Pair("here", "ws"), Pair("there", "ws");
    var older, newer := Event("evt-1", "a", START, "", there, 1, None), Event("evt-2", "a", START, "", here, 2, None);
    var gone, stands := WorktreeRecord("here", true, false, false), WorktreeRecord("there", false, false, false);
    records, events, self := [gone, stands], [older, newer], HolderOf(newer);
    members := [Issue("a", Task, "", InProgress, false, "")];
    facts := CheckoutFacts(Freshness(2, 5), Enumerated("ws", records));
    assert stands in records && gone in records && members[0].InPlay();
    GoneIsUninhabited("ws", records, here);
    GoneIsUninhabited("ws", records, there);
    OwnVoidIsForeign(members, older, newer, facts);
  }

  lemma OwnVoidIsForeign(members: seq<Issue>, older: Event, newer: Event, facts: CheckoutFacts)
    requires Unfinished(members) && Establishes(older.action) && Establishes(newer.action)
    requires older.createdAt < newer.createdAt && facts.freshness.Covers(older.createdAt)
    requires !facts.local.Void(older.attribution) && facts.local.Void(newer.attribution)
    ensures LastTaker([older, newer]) == Some(HolderOf(newer))
    ensures Holding(members, [older, newer], facts, HolderOf(newer)) == LaneHeldForeign
  {
    assert [older, newer] == [older] + [newer];
    NewestIsLatest([older], newer);
    AdmissibleOf(older, newer, facts.local);
    TenureOfOne(older, facts);
  }

  lemma AdmissibleOf(kept: Event, dropped: Event, local: LocalCheckouts)
    requires !local.Void(kept.attribution) && local.Void(dropped.attribution)
    ensures Admissible([kept, dropped], local) == [kept]
  {
    assert [kept, dropped] == [kept] + [dropped] && [kept] == [] + [kept];
    AdmissibleLast([kept], dropped, local);
    AdmissibleLast([], kept, local);
  }

  lemma TenureOfOne(event: Event, facts: CheckoutFacts)
    requires Establishes(event.action) && facts.freshness.Covers(event.createdAt)
    ensures TenureAmong([event], facts.freshness, facts.local) ==
      Some(Tenure(HolderOf(event), event.createdAt, event.createdAt))
  {
    assert [event][..0] == [];
    assert Latest([event]) == Some(event);
    assert Activity([event]) == map[HolderOf(event) := event.createdAt];
  }

  /** The gate demands a confirmed takeover only of a lane the full derivation
      calls foreign, and passes any other lane with none; it demands it of every
      such lane, for a transition that can land and would record something, from
      any checkout its own enumeration does not void. */
  lemma GateRefusesExactlyForeign(
    st: Standing, issue: Issue, history: seq<Event>, members: seq<Issue>, events: seq<Event>, facts: CheckoutFacts,
    action: Action, self: Holder)
    requires Answers(st, members, events, facts.freshness, facts.local)
    requires PlanOf(issue, history, action, self).Ok? &&
      (action.Start? || PlanOf(issue, history, action, self).value.Records())
    ensures Authorized(issue, history, members, events, facts, action, self, true).Ok?
    ensures Authorized(issue, history, members, events, facts, action, self, false) != Refused(TakeoverUnconfirmed) ==>
      Authorized(issue, history, members, events, facts, action, self, false).Ok?
    ensures RelationOf(st, self) != LaneHeldForeign ==>
      Authorized(issue, history, members, events, facts, action, self, false).Ok?
    ensures RelationOf(st, self) == LaneHeldForeign && !facts.local.Void(self.checkout) ==>
      Authorized(issue, history, members, events, facts, action, self, false) == Refused(TakeoverUnconfirmed)
  {
    HoldingIsRelation(st, members, events, facts, self);
    if Present(self.checkout) && LastTaker(events) == Some(self) {
      LastTakerHolds(members, events, facts, self);
    }
  }

  // ---- A lane under gated transitions ----

  datatype LaneState = LaneState(members: seq<Issue>, events: seq<Event>)

  /** One gated call: by whom, on which member, what it knew, and what the store
      stamps it with. elsewhere is the newest instant of the rest of the family. */
  datatype Request = Request(
    member: nat, action: Action, checkout: Attribution, actor: string, crossed: bool,
    facts: CheckoutFacts, clock: int, elsewhere: int, eventID: string)
  {
    function Self(): Holder { HolderFor(checkout, actor) }
  }

  function History(events: seq<Event>, id: ID): seq<Event> {
    if events == [] then []
    else
      var last := events[|events| - 1];
      History(events[..|events| - 1], id) + if last.issueID == id then [last] else []
  }

  function NewestInstant(events: seq<Event>): (newest: int)
    ensures forall event :: event in events ==> event.createdAt <= newest
  {
    if events == [] then 0
    else
      var init, last := events[..|events| - 1], events[|events| - 1];
      assert events == init + [last];
      if last.createdAt > NewestInstant(init) then last.createdAt else NewestInstant(init)
  }

  /** The clock's reading, unless history already holds an instant at or past it. */
  function NextEventInstant(now: int, newest: int): int {
    if newest < now then now else newest + 1
  }

  function Stamp(lane: LaneState, req: Request): int {
    var newest := NewestInstant(lane.events);
    NextEventInstant(req.clock, if req.elsewhere > newest then req.elsewhere else newest)
  }

  /** A start into progress enters plan, a phase move the phase it names, and a start
      of what is in progress already moves no status and so no phase. */
  function Entered(issue: Issue, action: Action): Option<string> {
    if action.SetPhase? then Some(action.to)
    else if action.Start? && issue.state != InProgress then Some(PLAN)
    else None
  }

  function EventOf(lane: LaneState, req: Request, action: Action): Event
    requires req.member < |lane.members|
  {
    var issue := lane.members[req.member];
    Event(req.eventID, issue.id, action.Name(), req.actor, req.checkout, Stamp(lane, req), Entered(issue, action))
  }

  /** The plan the store runs, if the gate passed the call, or never met it, and it
      records anything. */
  function Recorded(lane: LaneState, req: Request): Option<(Action, Plan)>
    requires req.member < |lane.members|
  {
    var issue := lane.members[req.member];
    var history := History(lane.events, issue.id);
    match
      if Gated(req.action) then
        Authorized(issue, history, lane.members, lane.events, req.facts, req.action, req.Self(), req.crossed)
      else Ok(Passed(req.action, false))
    case Refused(_) => None
    case Ok(passed) =>
      var plan := PlanOf(issue, history, passed.action, req.Self());
      if plan.Refused? || !plan.value.Records() then None else Some((passed.action, plan.value))
  }

  function Step(lane: LaneState, req: Request): LaneState
    requires req.member < |lane.members|
  {
    match Recorded(lane, req)
    case None => lane
    case Some((action, plan)) =>
      LaneState(lane.members[req.member := plan.updated], lane.events + [EventOf(lane, req, action)])
  }

  ghost predicate WellKept(lane: LaneState) {
    && OldestFirst(lane.events) && Keyed(multiset(lane.events))
    && (forall i, j :: 0 <= i < j < |lane.members| ==> lane.members[i].id != lane.members[j].id)
  }

  lemma AppendKeepsOrder(events: seq<Event>, event: Event)
    requires OldestFirst(events) && Keyed(multiset(events))
    requires forall e :: e in events ==> e.createdAt < event.createdAt
    ensures OldestFirst(events + [event]) && Keyed(multiset(events + [event]))
  {
    var longer := events + [event];
    forall i, j | 0 <= i < j < |longer| ensures CompareRecency(longer[i], longer[j]) <= 0 {
      if j < |events| {
        assert CompareRecency(events[i], events[j]) <= 0;
      } else {
        assert events[i] in events;
      }
    }
    forall a, b | a in multiset(longer) && b in multiset(longer) && a.createdAt == b.createdAt && a.id == b.id
      ensures a == b {
      assert a in longer && b in longer;
      if a in events && b in events {
        assert a in multiset(events) && b in multiset(events);
      }
    }
  }

  /** A recorded call, by what it writes. */
  ghost predicate Writes(lane: LaneState, req: Request, action: Action, plan: Plan)
    requires req.member < |lane.members|
  {
    var issue := lane.members[req.member];
    && (action == req.action || (req.action.Start? && action == Start(req.action.assignee, true)))
    && plan.prior == ClaimantOf(issue, History(lane.events, issue.id))
    && plan.post == plan.prior.After(action, req.Self())
    && plan.updated == issue.(state := action.Target(), assignee := plan.post.assignee)
    && Step(lane, req) ==
      LaneState(lane.members[req.member := plan.updated], lane.events + [EventOf(lane, req, action)])
    && (forall e :: e in lane.events ==> e.createdAt < EventOf(lane, req, action).createdAt)
  }

  lemma RecordedWrites(lane: LaneState, req: Request)
    requires req.member < |lane.members| && Recorded(lane, req).Some?
    ensures Writes(lane, req, Recorded(lane, req).value.0, Recorded(lane, req).value.1)
  {
  }

  /** Whatever the clock reads, an event is stamped after the history it was
      planned against, so the lane's order is the order of its writes. */
  lemma StepKeepsOrder(lane: LaneState, req: Request)
    requires WellKept(lane) && req.member < |lane.members|
    ensures WellKept(Step(lane, req))
    ensures |Step(lane, req).members| == |lane.members|
    ensures forall i :: 0 <= i < |lane.members| ==> Step(lane, req).members[i].id == lane.members[i].id
    ensures lane.events <= Step(lane, req).events && |Step(lane, req).events| <= |lane.events| + 1
  {
    if Recorded(lane, req).Some? {
      RecordedWrites(lane, req);
      WritesKeepOrder(lane, req, Recorded(lane, req).value.0, Recorded(lane, req).value.1);
    }
  }

  lemma WritesKeepOrder(lane: LaneState, req: Request, action: Action, plan: Plan)
    requires WellKept(lane) && req.member < |lane.members| && Writes(lane, req, action, plan)
    ensures WellKept(Step(lane, req))
  {
    AppendKeepsOrder(lane.events, EventOf(lane, req, action));
  }

  lemma HistoryLast(events: seq<Event>, event: Event, id: ID)
    ensures History(events + [event], id) == History(events, id) + if event.issueID == id then [event] else []
  {
    assert (events + [event])[..|events|] == events;
  }

  lemma {:induction false} HistoryIs(events: seq<Event>, id: ID)
    ensures forall event :: event in History(events, id) <==> event in events && event.issueID == id
  {
    if events != [] {
      HistoryIs(events[..|events| - 1], id);
      assert events == events[..|events| - 1] + [events[|events| - 1]];
    }
  }

  lemma NewestIsLatest(events: seq<Event>, event: Event)
    requires Establishes(event.action) && forall e :: e in events ==> CompareRecency(e, event) < 0
    ensures Latest(events + [event]) == Some(event)
  {
    assert (events + [event])[..|events|] == events;
    var i := LatestIsNewest(events);
  }

  /** A recorded start makes its taker, at once, the ticket's claimant and the
      lane's last taker: the two records agree, also when the start reclaims a
      lane a sibling's start had moved. */
  lemma RecordedStartTakesBoth(lane: LaneState, req: Request)
    requires req.member < |lane.members| && req.action.Start? && Recorded(lane, req).Some?
    ensures |Step(lane, req).members| == |lane.members| &&
      TakenBy(Step(lane, req), req.member, Text.TrimSpace(req.action.assignee), req.Self())
  {
    RecordedWrites(lane, req);
    StartTakes(lane, req, Recorded(lane, req).value.0, Recorded(lane, req).value.1);
  }

  ghost predicate TakenBy(lane: LaneState, member: nat, assignee: string, holder: Holder)
    requires member < |lane.members|
  {
    var issue := lane.members[member];
    && ClaimantOf(issue, History(lane.events, issue.id)) == Claimant(true, assignee, holder)
    && LastTaker(lane.events) == Some(holder)
    && issue.state == InProgress
  }

  lemma StartTakes(lane: LaneState, req: Request, action: Action, plan: Plan)
    requires req.member < |lane.members| && Writes(lane, req, action, plan) && req.action.Start?
    ensures TakenBy(Step(lane, req), req.member, Text.TrimSpace(req.action.assignee), req.Self())
  {
    var issue, event := lane.members[req.member], EventOf(lane, req, action);
    NewestIsLatest(lane.events, event);
    HistoryLast(lane.events, event, issue.id);
    HistoryIs(lane.events, issue.id);
    NewestIsLatest(History(lane.events, issue.id), event);
  }

  /** A start the gate passes goes unrecorded exactly when it has nothing left to do:
      the ticket's record and the lane's both name its taker already. A ticket of
      one's own in a lane a sibling's start moved is therefore taken back. */
  lemma StartRecordsUnlessTaken(lane: LaneState, req: Request)
    requires req.member < |lane.members| && req.action.Start? && !req.action.reclaim
    requires Authorized(lane.members[req.member], History(lane.events, lane.members[req.member].id),
      lane.members, lane.events, req.facts, req.action, req.Self(), req.crossed).Ok?
    ensures Recorded(lane, req).None? <==> TakenBy(lane, req.member, Text.TrimSpace(req.action.assignee), req.Self())
  {
  }

  /** Starting again what one already holds records nothing, whoever one is,
      whatever the clock, the enumeration or --take say by then. */
  lemma RepeatedStartRecordsNothing(lane: LaneState, req: Request, again: Request)
    requires req.member < |lane.members| && req.action.Start? && Recorded(lane, req).Some?
    requires again.member == req.member && again.Self() == req.Self()
    requires again.action == Start(req.action.assignee, false)
    ensures Step(Step(lane, req), again) == Step(lane, req)
  {
    RecordedStartTakesBoth(lane, req);
    TakenStaysTaken(Step(lane, req), again);
  }

  lemma TakenStaysTaken(lane: LaneState, req: Request)
    requires req.member < |lane.members| && req.action.Start? && !req.action.reclaim
    requires TakenBy(lane, req.member, Text.TrimSpace(req.action.assignee), req.Self())
    ensures Step(lane, req) == lane
  {
    var issue := lane.members[req.member];
    var plan := PlanOf(issue, History(lane.events, issue.id), req.action, req.Self());
    assert plan.Ok? ==> !plan.value.Records();
    assert Recorded(lane, req).None?;
  }

  /** A repeated done records nothing, whoever repeats it. */
  lemma RepeatedDoneRecordsNothing(lane: LaneState, req: Request, again: Request)
    requires req.member < |lane.members| && req.action == Done && Recorded(lane, req).Some?
    requires again.member == req.member && again.action == Done
    ensures Step(Step(lane, req), again) == Step(lane, req)
  {
    RecordedWrites(lane, req);
    DoneStaysDone(Step(lane, req), again);
  }

  lemma DoneStaysDone(lane: LaneState, req: Request)
    requires req.member < |lane.members| && req.action == Done && lane.members[req.member].state == Closed
    ensures Step(lane, req) == lane
  {
    var issue := lane.members[req.member];
    var plan := PlanOf(issue, History(lane.events, issue.id), req.action, req.Self());
    assert plan.Ok? ==> !plan.value.Records();
  }

  lemma PhaseNext(history: seq<Event>, event: Event)
    requires forall e :: e in history ==> e.createdAt < event.createdAt
    ensures PhaseIn(history + [event]) == if event.enters.Some? then event.enters.value else PhaseIn(history)
  {
    assert (history + [event])[..|history|] == history;
    LatestEnteringIs(history);
  }

  /** The phase a ticket is in follows what was recorded: a start into progress enters
      plan, a phase move enters the phase it names, a start that takes work in progress
      over keeps the phase it had reached, and leaving progress ends it. */
  lemma PhaseFollowsTheRecord(lane: LaneState, req: Request)
    requires req.member < |lane.members| && Recorded(lane, req).Some?
    ensures |Step(lane, req).members| == |lane.members|
    ensures var before, after := lane.members[req.member], Step(lane, req);
      PhaseOf(after.members[req.member], History(after.events, before.id)) ==
        match req.action
        case SetPhase(to) => Some(to)
        case Start(_, _) =>
          if before.state == InProgress then PhaseOf(before, History(lane.events, before.id)) else Some(PLAN)
        case _ => None
  {
    RecordedWrites(lane, req);
    var (action, plan) := Recorded(lane, req).value;
    var issue, event := lane.members[req.member], EventOf(lane, req, action);
    HistoryLast(lane.events, event, issue.id);
    HistoryIs(lane.events, issue.id);
    PhaseNext(History(lane.events, issue.id), event);
    RecordedIsNoContainer(lane, req);
  }

  lemma RecordedIsNoContainer(lane: LaneState, req: Request)
    requires req.member < |lane.members| && Recorded(lane, req).Some?
    ensures !lane.members[req.member].IsContainer()
  {
  }

  /** A phase move made twice is recorded once, whoever repeats it. */
  lemma RepeatedPhaseRecordsNothing(lane: LaneState, req: Request, again: Request)
    requires req.member < |lane.members| && req.action.SetPhase? && Recorded(lane, req).Some?
    requires again.member == req.member && again.action == req.action
    ensures Step(Step(lane, req), again) == Step(lane, req)
  {
    RecordedWrites(lane, req);
    PhaseFollowsTheRecord(lane, req);
    PhaseStays(Step(lane, req), again);
  }

  lemma PhaseStays(lane: LaneState, req: Request)
    requires req.member < |lane.members| && req.action.SetPhase?
    requires PhaseOf(lane.members[req.member], History(lane.events, lane.members[req.member].id)) == Some(req.action.to)
    ensures Step(lane, req) == lane
  {
    var issue := lane.members[req.member];
    var plan := PlanOf(issue, History(lane.events, issue.id), req.action, req.Self());
    assert plan.Ok? ==> !plan.value.Records();
  }

  /** After a recorded transition the ticket's record names the claimant its plan
      installed, except when the transition is a done by anybody but the ticket's
      own claimant: done takes the lane but leaves the plan's claimant alone. */
  lemma ClaimantAgreesExceptAfterDone(lane: LaneState, req: Request)
    requires req.member < |lane.members| && Recorded(lane, req).Some?
    ensures var after, plan := Step(lane, req), Recorded(lane, req).value.1;
      |after.members| == |lane.members| &&
      (ClaimantOf(after.members[req.member], History(after.events, after.members[req.member].id)) == plan.post <==>
        (req.action.Done? ==> plan.prior.established && plan.prior.holder == req.Self()))
  {
    RecordedWrites(lane, req);
    var (action, plan) := Recorded(lane, req).value;
    ClaimantAfter(lane.events, lane.members[req.member], EventOf(lane, req, action), action, req.Self(), plan.updated);
  }

  /** The verbs that take a lane are start and done alone. */
  lemma VerbsThatTake(action: Action)
    ensures Establishes(action.Name()) <==> action.Start? || action.Done?
  {
    assert |START| == 5 && |DONE| == 4 && |CLOSE| == 5 && |REOPEN| == 6;
    assert |PHASE| == 5 && PHASE[0] == 'p';
    assert START[0] == 's' && CLOSE[0] == 'c' && DONE[0] == 'd' && REOPEN[2] == 'o';
  }

  lemma ClaimantAfter(events: seq<Event>, issue: Issue, event: Event, action: Action, self: Holder, updated: Issue)
    requires issue.id == event.issueID && event.action == action.Name() && HolderOf(event) == self
    requires forall e :: e in events ==> e.createdAt < event.createdAt
    requires var post := ClaimantOf(issue, History(events, issue.id)).After(action, self);
      updated == issue.(state := action.Target(), assignee := post.assignee)
    ensures var prior := ClaimantOf(issue, History(events, issue.id));
      ClaimantOf(updated, History(events + [event], issue.id)) == prior.After(action, self) <==>
        (action.Done? ==> prior.established && prior.holder == self)
  {
    ClaimantAppended(events, issue, updated, event);
    VerbsThatTake(action);
  }

  lemma ClaimantAppended(events: seq<Event>, issue: Issue, updated: Issue, event: Event)
    requires updated.id == issue.id == event.issueID
    requires forall e :: e in events ==> e.createdAt < event.createdAt
    ensures ClaimantOf(updated, History(events + [event], issue.id)) ==
      if Establishes(event.action) then Claimant(true, updated.assignee, HolderOf(event))
      else ClaimantOf(issue, History(events, issue.id)).(assignee := updated.assignee)
  {
    var history := History(events, issue.id);
    HistoryLast(events, event, issue.id);
    HistoryIs(events, issue.id);
    if Establishes(event.action) {
      NewestIsLatest(history, event);
    } else {
      assert (history + [event])[..|history|] == history;
    }
  }

  // ---- A hold is never crossed in silence ----

  function AdmissibleTaker(lane: LaneState, local: LocalCheckouts): Option<Holder> {
    LastTaker(Admissible(lane.events, local))
  }

  ghost predicate HeldAt(lane: LaneState, facts: CheckoutFacts) {
    TenureOf(lane.members, lane.events, facts.freshness, facts.local).Some?
  }

  /** An unconfirmed call the gate passes, recorded on a held lane, is its taker's. */
  lemma RecordsOnlyTheTakers(lane: LaneState, req: Request)
    requires req.member < |lane.members| && HeldAt(lane, req.facts) && Recorded(lane, req).Some?
    requires Gated(req.action) && !req.crossed && !req.facts.local.Void(req.checkout)
    ensures AdmissibleTaker(lane, req.facts.local) == Some(req.Self())
  {
    if Present(req.checkout) && LastTaker(lane.events) == Some(req.Self()) {
      LastTakerHolds(lane.members, lane.events, req.facts, req.Self());
    }
  }

  /** The lane's standing still names the handover's predecessor as its holder. */
  ghost predicate StillHeld(from: Claimant, lane: LaneState, facts: CheckoutFacts) {
    HeldAt(lane, facts) && TenureOf(lane.members, lane.events, facts.freshness, facts.local).value.holder == from.holder
  }

  /** A claim that is still one changes hands only by a confirmed takeover: short of
      that, a live handover passes from a holder to itself, under another assignee. */
  lemma LiveHandoverIsConfirmed(lane: LaneState, req: Request)
    requires req.member < |lane.members| && Recorded(lane, req).Some? && !req.facts.local.Void(req.checkout)
    ensures var plan := Recorded(lane, req).value.1; var handover := plan.prior.HandoverTo(plan.post);
      handover.Some? && StillHeld(handover.value.0, lane, req.facts) ==>
        req.crossed || handover.value.0.holder == handover.value.1.holder == req.Self()
  {
    RecordedWrites(lane, req);
    if HeldAt(lane, req.facts) && !req.crossed && Gated(req.action) {
      RecordsOnlyTheTakers(lane, req);
    }
  }

  lemma TakerKeeps(events: seq<Event>, event: Event, local: LocalCheckouts)
    requires Establishes(event.action) ==> LastTaker(Admissible(events, local)) == Some(HolderOf(event))
    requires forall e :: e in events ==> e.createdAt < event.createdAt
    ensures LastTaker(Admissible(events + [event], local)) == LastTaker(Admissible(events, local))
  {
    AdmissibleLast(events, event, local);
    var kept := Admissible(events, local);
    assert kept + [] == kept;
    if Establishes(event.action) {
      forall e | e in kept ensures CompareRecency(e, event) < 0 {
        AdmissibleKeeps(events, local, e);
      }
      NewestIsLatest(kept, event);
    } else {
      assert (kept + [event])[..|kept|] == kept;
    }
  }

  /** A call that confirms no takeover leaves a held lane's taker its taker. */
  lemma UnconfirmedKeepsTaker(lane: LaneState, req: Request)
    requires req.member < |lane.members| && HeldAt(lane, req.facts)
    requires !req.crossed && !req.facts.local.Void(req.checkout)
    ensures AdmissibleTaker(Step(lane, req), req.facts.local) == AdmissibleTaker(lane, req.facts.local)
  {
    if Recorded(lane, req).Some? {
      RecordedWrites(lane, req);
      VerbsThatTake(Recorded(lane, req).value.0);
      if Gated(req.action) {
        RecordsOnlyTheTakers(lane, req);
      }
      TakerKeeps(lane.events, EventOf(lane, req, Recorded(lane, req).value.0), req.facts.local);
    }
  }

  function Run(lane: LaneState, reqs: seq<Request>): LaneState
    requires forall r :: r in reqs ==> r.member < |lane.members|
    decreases |reqs|
  {
    if reqs == [] then lane
    else
      var next := Step(lane, reqs[0]);
      Run(next, reqs[1..])
  }

  /** Every call of the run finds the lane held when it looks, and confirms no takeover. */
  ghost predicate Unconfirmed(lane: LaneState, reqs: seq<Request>, local: LocalCheckouts)
    requires forall r :: r in reqs ==> r.member < |lane.members|
    decreases |reqs|
  {
    reqs == [] ||
    (HeldAt(lane, reqs[0].facts) && !reqs[0].crossed && reqs[0].facts.local == local && !local.Void(reqs[0].checkout) &&
     Unconfirmed(Step(lane, reqs[0]), reqs[1..], local))
  }

  /** Over any run of calls by any holders at any clocks, none confirming a
      takeover and none finding the hold over, the lane keeps its taker: a hold
      passes on only by confirmation, expiry, the lane finishing, or the taker's
      checkout disappearing. */
  lemma {:induction false} HoldNeverPassesInSilence(
    lane: LaneState, reqs: seq<Request>, local: LocalCheckouts, at: CheckoutFacts)
    requires forall r :: r in reqs ==> r.member < |lane.members|
    requires WellKept(lane) && Unconfirmed(lane, reqs, local) && at.local == local
    ensures WellKept(Run(lane, reqs)) && AdmissibleTaker(Run(lane, reqs), local) == AdmissibleTaker(lane, local)
    ensures HeldAt(Run(lane, reqs), at) ==> var after := Run(lane, reqs);
      Some(TenureOf(after.members, after.events, at.freshness, local).value.holder) == AdmissibleTaker(lane, local)
    decreases |reqs|
  {
    if reqs != [] {
      UnconfirmedKeepsTaker(lane, reqs[0]);
      StepKeepsOrder(lane, reqs[0]);
      HoldNeverPassesInSilence(Step(lane, reqs[0]), reqs[1..], local, at);
    }
  }
}
