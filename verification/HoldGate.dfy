// internal/claims/claimant.go and internal/cli/claims_takeover.go: who a ticket's
// record names, when a transition records anything, and the gate a transition
// on held work passes before it writes.
module HoldGate {
  import opened Model
  import opened Events
  import opened Standing
  import Text

  // ---- A lane's standing, read against the reader ----

  datatype LaneRelation = LaneUnclaimed | LaneOurs | LaneHeldForeign

  function RelationOf(st: Standing, self: Holder): LaneRelation {
    if st.Unclaimed? then LaneUnclaimed
    else if Present(self.checkout) && st.tenure.holder == self then LaneOurs
    else LaneHeldForeign
  }

  /** The holder of the lane's latest establishing event, fresh or not. */
  function LastTaker(events: seq<Event>): Option<Holder> {
    var establisher := Latest(events);
    if establisher.None? then None else Some(HolderOf(establisher.value))
  }

  // ---- Actions and what they do to one issue ----

  datatype Action = Start(assignee: string, reclaim: bool) | Done | Close | Reopen | SetPhase(to: string)
  {
    function Name(): string {
      match this
      case Start(_, _) => START
      case Done => DONE
      case Close => CLOSE
      case Reopen => REOPEN
      case SetPhase(_) => PHASE
    }

    function Target(): State {
      match this
      case Start(_, _) => InProgress
      case Done => Closed
      case Close => Closed
      case Reopen => Open
      case SetPhase(_) => InProgress
    }
  }

  datatype Refusal = ContainerAction | FrozenIssue | NoPhase | UnwritableAssignee | TakeoverUnconfirmed

  /** An assignee no filter could select: it holds a comma, or a line break. */
  predicate Unwritable(assignee: string) {
    exists c :: c in Text.TrimSpace(assignee) &&
      c in ",\n\r\U{000b}\U{000c}\U{0085}\U{2028}\U{2029}"
  }

  function Apply(issue: Issue, action: Action): Result<Issue, Refusal>
    requires !action.SetPhase?
  {
    if issue.IsContainer() then Refused(ContainerAction)
    else if issue.frozen then Refused(FrozenIssue)
    else if action.Start? && Unwritable(action.assignee) then Refused(UnwritableAssignee)
    else Ok(issue.(state := action.Target()))
  }

  // ---- Claimants and plans ----

  datatype Claimant = Claimant(established: bool, assignee: string, holder: Holder)
  {
    /** The claimant an action installs when taker performs it: only a start moves it. */
    function After(action: Action, taker: Holder): Claimant {
      if action.Start? then Claimant(true, Text.TrimSpace(action.assignee), taker) else this
    }

    function HandoverTo(next: Claimant): Option<(Claimant, Claimant)> {
      if !established || next == this then None else Some((this, next))
    }
  }

  const NO_HOLDER := Holder(PUBLIC_CHECKOUT, NOBODY)

  function ClaimantOf(issue: Issue, history: seq<Event>): Claimant {
    var establisher := Latest(history);
    Claimant(establisher.Some?, issue.assignee, if establisher.Some? then HolderOf(establisher.value) else NO_HOLDER)
  }

  datatype Plan = Plan(current: Issue, updated: Issue, prior: Claimant, post: Claimant, reclaims: bool, rephases: bool)
  {
    /** The transition moves the status, the claimant, the lane's hold or the phase. */
    predicate Records() { updated.state != current.state || post != prior || reclaims || rephases }
  }

  /** A phase move needs a phase to leave; having none is refused ahead of having left
      the flow. */
  function PlanPhase(issue: Issue, history: seq<Event>, to: string): Result<bool, Refusal> {
    var from := PhaseOf(issue, history);
    if from.None? then Refused(NoPhase)
    else if issue.frozen then Refused(FrozenIssue)
    else Ok(from.value != to)
  }

  function PlanOf(issue: Issue, history: seq<Event>, action: Action, taker: Holder): Result<Plan, Refusal> {
    var prior := ClaimantOf(issue, history);
    if action.SetPhase? then
      match PlanPhase(issue, history, action.to)
      case Refused(refusal) => Refused(refusal)
      case Ok(moves) => Ok(Plan(issue, issue, prior, prior, false, moves))
    else
      match Apply(issue, action)
      case Refused(refusal) => Refused(refusal)
      case Ok(updated) =>
        var post := prior.After(action, taker);
        Ok(Plan(issue, updated.(assignee := post.assignee), prior, post, action.Start? && action.reclaim, false))
  }

  // ---- The gate ----

  /** What this machine knows when the gate has to ask: the clock and the checkouts. */
  datatype CheckoutFacts = CheckoutFacts(freshness: Freshness, local: LocalCheckouts)

  /** The action to write, once the gate lets it pass; took is whether crossing a
      foreign hold is what let it. */
  datatype Passed = Passed(action: Action, took: bool)

  function Holding(members: seq<Issue>, events: seq<Event>, facts: CheckoutFacts, self: Holder): LaneRelation {
    match TenureOf(members, events, facts.freshness, facts.local)
    case None => LaneUnclaimed
    case Some(tenure) => if Present(self.checkout) && tenure.holder == self then LaneOurs else LaneHeldForeign
  }

  lemma HoldingIsRelation(st: Standing, members: seq<Issue>, events: seq<Event>, facts: CheckoutFacts, self: Holder)
    requires Answers(st, members, events, facts.freshness, facts.local)
    ensures Holding(members, events, facts, self) == RelationOf(st, self)
  {
  }

  /** The verbs built through the gate; the others answer to no hold. */
  predicate Gated(action: Action) { action.Start? || action.Done? || action.SetPhase? }

  /** The lane's standing derived, and read against the one that asks. */
  method ReadHold(members: seq<Issue>, events: seq<Event>, facts: CheckoutFacts, self: Holder)
    returns (relation: LaneRelation)
    ensures relation == Holding(members, events, facts, self)
  {
    var standing := StandingOf(members, events, facts.freshness, facts.local);
    HoldingIsRelation(standing, members, events, facts, self);
    relation := RelationOf(standing, self);
  }

  /** The gate an action on an issue passes: members and events are its
      lane's, history the issue's own, crossed whether the caller confirmed a
      takeover (--take, or yes at the prompt). */
  method AuthorizeHold(
    issue: Issue, history: seq<Event>, members: seq<Issue>, events: seq<Event>, facts: CheckoutFacts,
    action0: Action, self: Holder, crossed: bool) returns (r: Result<Passed, Refusal>)
    ensures r == Authorized(issue, history, members, events, facts, action0, self, crossed)
  {
    var action := action0;
    var plan := PlanOf(issue, history, action, self);
    if plan.Refused? {
      return Refused(plan.refusal);
    }
    var records := plan.value.Records();
    if !records && !action.Start? {
      return Ok(Passed(action, false));
    }
    var establisher := LatestEstablisher(events);
    var taken := establisher.Some?;
    var ours := taken && HolderOf(establisher.value) == self;
    if Present(self.checkout) && ours {
      return Ok(Passed(action, false));
    }
    if action.Start? && !records && !ours {
      action := action.(reclaim := true);
    }
    var relation := ReadHold(members, events, facts, self);
    var took := false;
    if relation == LaneHeldForeign {
      if !crossed {
        return Refused(TakeoverUnconfirmed);
      }
      took := true;
    }
    r := Ok(Passed(action, took));
  }

  /** The gate's verdict, as a function of what it read. */
  function Authorized(
    issue: Issue, history: seq<Event>, members: seq<Issue>, events: seq<Event>, facts: CheckoutFacts,
    action: Action, self: Holder, crossed: bool): Result<Passed, Refusal>
  {
    var plan := PlanOf(issue, history, action, self);
    if plan.Refused? then Refused(plan.refusal)
    else if !plan.value.Records() && !action.Start? then Ok(Passed(action, false))
    else if Present(self.checkout) && LastTaker(events) == Some(self) then Ok(Passed(action, false))
    else
      var written :=
        if action.Start? && !plan.value.Records() && LastTaker(events) != Some(self)
          then action.(reclaim := true)
        else action;
      var foreign := Holding(members, events, facts, self) == LaneHeldForeign;
      if foreign && !crossed then Refused(TakeoverUnconfirmed) else Ok(Passed(written, foreign))
  }
}
