// Events, the holders they name and which of them take a lane:
// internal/claims/standing.go, establish.go, local.go and the event order of
// internal/model/phase.go.
module Events {
  import opened Model
  import opened Sorting
  import Text

  // ---- Who recorded an event ----

  datatype StreamAndWorkspace = Pair(stream: string, workspace: string)

  /** A checkout's stamp: the complete pair, or the public checkout's empty one. */
  type Attribution = a: StreamAndWorkspace | (a.stream == "") == (a.workspace == "") witness Pair("", "")

  const PUBLIC_CHECKOUT: Attribution := Pair("", "")

  predicate Present(at: Attribution) { at != PUBLIC_CHECKOUT }

  datatype Session = Session(actor: string)

  const NOBODY := Session("")
  const UNKNOWN_ACTOR := "unknown"

  function SessionOf(actor: string): Session {
    var trimmed := Text.TrimSpace(actor);
    if trimmed == "" || trimmed == UNKNOWN_ACTOR then NOBODY else Session(trimmed)
  }

  datatype Holder = Holder(checkout: Attribution, session: Session)

  /** One recorded mutation; enters is the phase its changes put the issue in. */
  datatype Event = Event(
    id: string, issueID: ID, action: string, actor: string, attribution: Attribution, createdAt: int,
    enters: Option<string>)

  function HolderFor(checkout: Attribution, actor: string): Holder { Holder(checkout, SessionOf(actor)) }

  function HolderOf(event: Event): Holder { HolderFor(event.attribution, event.actor) }

  /** Nobody in particular: no name, or the one no name is given. */
  predicate Anonymous(actor: string) { Text.IsBlank(actor) || Text.TrimSpace(actor) == "unknown" }

  /** Two events are one holder's exactly when one checkout recorded them under one name,
      white space around it aside; whoever gives none is one session. */
  lemma SameHolderIs(a: Event, b: Event)
    ensures HolderOf(a) == HolderOf(b) <==>
      a.attribution == b.attribution &&
      if Anonymous(a.actor) || Anonymous(b.actor) then Anonymous(a.actor) && Anonymous(b.actor)
      else Text.TrimSpace(a.actor) == Text.TrimSpace(b.actor)
  {
    Text.BlankTrimsAway(a.actor);
    Text.BlankTrimsAway(b.actor);
  }

  // ---- Which event is newer ----

  function CompareRecency(a: Event, b: Event): int {
    if a.createdAt != b.createdAt then a.createdAt - b.createdAt else Text.Compare(a.id, b.id)
  }

  /** Newer is later, and at one instant the greater id. */
  lemma RecencyOrders()
    ensures TotalPreorder(CompareRecency)
    ensures forall a, b :: CompareRecency(a, b) < 0 <==>
      a.createdAt < b.createdAt || (a.createdAt == b.createdAt && Text.Precedes(a.id, b.id))
  {
    forall a: Event, b: Event ensures Text.Compare(a.id, b.id) < 0 <==> Text.Precedes(a.id, b.id) {
      Text.CompareIs(a.id, b.id);
    }
    forall a, b ensures CompareRecency(a, b) <= 0 || CompareRecency(b, a) <= 0 {
      Text.CompareFlips(a.id, b.id);
    }
    forall a: Event, b: Event, c: Event | CompareRecency(a, b) <= 0 && CompareRecency(b, c) <= 0
      ensures CompareRecency(a, c) <= 0
    {
      RecencyIsTransitive(a, b, c);
    }
  }

  lemma RecencyIsTransitive(a: Event, b: Event, c: Event)
    requires CompareRecency(a, b) <= 0 && CompareRecency(b, c) <= 0
    ensures CompareRecency(a, c) <= 0
    ensures CompareRecency(a, b) < 0 || CompareRecency(b, c) < 0 ==> CompareRecency(a, c) < 0
  {
    if a.createdAt == b.createdAt == c.createdAt {
      Text.CompareTransitive(a.id, b.id, c.id);
    }
  }

  /** No two events share an instant and an id. */
  ghost predicate Keyed(events: multiset<Event>) {
    forall a, b :: a in events && b in events && a.createdAt == b.createdAt && a.id == b.id ==> a == b
  }

  ghost predicate OldestFirst(events: seq<Event>) { SortedBy(events, CompareRecency) }

  /** Keyed events have one order, whatever order they were read in. */
  lemma OrderIsUnique(a: seq<Event>, b: seq<Event>)
    requires multiset(a) == multiset(b) && OldestFirst(a) && OldestFirst(b) && Keyed(multiset(a))
    ensures a == b
  {
    forall x, y | x in a && y in a && CompareRecency(x, y) <= 0 && CompareRecency(y, x) <= 0 ensures x == y {
      Text.CompareFlips(x.id, y.id);
      assert x in multiset(a) && y in multiset(a);
    }
    SortIsUnique(a, b, CompareRecency);
  }

  // ---- Which verbs take a lane ----

  const START := "start"
  const DONE := "done"
  const CLOSE := "close"
  const REOPEN := "reopen"
  const PHASE := "phase"

  const ESTABLISHING: map<string, bool> := map[
    START := true, DONE := true, CLOSE := false, REOPEN := false, "archive" := false,
    "unarchive" := false, "delete" := false, "restore" := false, PHASE := false]

  /** A verb the table does not name takes nothing; a plain edit names none. */
  predicate Establishes(verb: string) { verb in ESTABLISHING && ESTABLISHING[verb] }

  lemma EstablishesIs(verb: string)
    ensures Establishes(verb) <==> verb == "start" || verb == "done"
  {
    assert |START| == 5 && |DONE| == 4 && |CLOSE| == 5 && |PHASE| == 5;
    assert START[0] == 's' && CLOSE[0] == 'c' && PHASE[0] == 'p';
  }

  function LatestFrom(latest: Option<Event>, event: Event): Option<Event> {
    if Establishes(event.action) && (latest.None? || CompareRecency(latest.value, event) < 0) then Some(event)
    else latest
  }

  function Latest(events: seq<Event>): Option<Event> {
    if events == [] then None
    else LatestFrom(Latest(events[..|events| - 1]), events[|events| - 1])
  }

  method LatestEstablisher(events: seq<Event>) returns (latest: Option<Event>)
    ensures latest == Latest(events)
  {
    latest := None;
    for i := 0 to |events|
      invariant latest == Latest(events[..i])
    {
      assert events[..i + 1][..i] == events[..i];
      latest := LatestFrom(latest, events[i]);
    }
    assert events[..|events|] == events;
  }

  /** The scan finds the newest establishing event, and of equals the first. */
  ghost predicate IsLatest(events: seq<Event>, i: nat) {
    && i < |events| && Establishes(events[i].action)
    && (forall j :: 0 <= j < |events| && Establishes(events[j].action) ==> CompareRecency(events[j], events[i]) <= 0)
    && (forall j :: 0 <= j < i && Establishes(events[j].action) ==> CompareRecency(events[j], events[i]) < 0)
  }

  ghost predicate TakesNothing(events: seq<Event>) {
    forall event :: event in events ==> !Establishes(event.action)
  }

  lemma {:induction false} LatestIsNewest(events: seq<Event>) returns (i: nat)
    ensures Latest(events).None? <==> TakesNothing(events)
    ensures Latest(events).Some? ==> IsLatest(events, i) && Latest(events).value == events[i]
  {
    i := 0;
    if events != [] {
      var init, last := events[..|events| - 1], events[|events| - 1];
      assert events == init + [last];
      i := LatestIsNewest(init);
      if Latest(init).Some? && Establishes(last.action) {
        Text.CompareFlips(init[i].id, last.id);
        if CompareRecency(init[i], last) < 0 {
          forall j | 0 <= j < |init| && Establishes(events[j].action) ensures CompareRecency(events[j], last) < 0 {
            RecencyIsTransitive(events[j], init[i], last);
          }
          i := |init|;
        }
      } else if Establishes(last.action) {
        i := |init|;
      }
    }
  }

  /** The scan does not depend on the order keyed events are read in, so the write
      side may ask it of one issue's history as the store returns it. */
  lemma LatestIgnoresOrder(a: seq<Event>, b: seq<Event>)
    requires multiset(a) == multiset(b) && Keyed(multiset(a))
    ensures Latest(a) == Latest(b)
  {
    var i := LatestIsNewest(a);
    var j := LatestIsNewest(b);
    forall event ensures event in a <==> event in b {
      assert event in a <==> event in multiset(a);
      assert event in b <==> event in multiset(b);
    }
    if Latest(a).Some? {
      assert a[i] in b;
      var i' :| 0 <= i' < |b| && b[i'] == a[i];
      assert b[j] in a;
      var j' :| 0 <= j' < |a| && a[j'] == b[j];
      Text.CompareFlips(a[i].id, b[j].id);
    }
  }

  // ---- Which phase a ticket's history puts it in ----

  const PLAN := "plan"

  function EnteringFrom(latest: Option<Event>, event: Event): Option<Event> {
    if event.enters.Some? && (latest.None? || CompareRecency(latest.value, event) < 0) then Some(event) else latest
  }

  function LatestEntering(events: seq<Event>): Option<Event> {
    if events == [] then None
    else EnteringFrom(LatestEntering(events[..|events| - 1]), events[|events| - 1])
  }

  predicate EntersNothing(events: seq<Event>) { forall event :: event in events ==> event.enters.None? }

  predicate NewestEntering(events: seq<Event>, latest: Event) {
    latest in events && latest.enters.Some? &&
    forall event :: event in events && event.enters.Some? ==> CompareRecency(event, latest) <= 0
  }

  /** The scan finds the newest event that enters a phase, and none exactly when none
      does. */
  lemma {:induction false} LatestEnteringIs(events: seq<Event>)
    ensures LatestEntering(events).None? <==> EntersNothing(events)
    ensures LatestEntering(events).Some? ==> NewestEntering(events, LatestEntering(events).value)
  {
    if events != [] {
      var init, last := events[..|events| - 1], events[|events| - 1];
      assert events == init + [last];
      LatestEnteringIs(init);
      EnteringNext(init, last);
    }
  }

  lemma EnteringNext(init: seq<Event>, last: Event)
    requires LatestEntering(init).None? <==> EntersNothing(init)
    requires LatestEntering(init).Some? ==> NewestEntering(init, LatestEntering(init).value)
    ensures var latest := EnteringFrom(LatestEntering(init), last);
      (latest.None? <==> EntersNothing(init + [last])) && (latest.Some? ==> NewestEntering(init + [last], latest.value))
  {
    assert last in init + [last] && forall event :: event in init ==> event in init + [last];
    Text.CompareFlips(last.id, last.id);
    if LatestEntering(init).Some? {
      var before := LatestEntering(init).value;
      Text.CompareFlips(before.id, last.id);
      forall event | event in init && event.enters.Some? && CompareRecency(before, last) < 0
        ensures CompareRecency(event, last) <= 0 {
        RecencyIsTransitive(event, before, last);
      }
    }
  }

  /** A history that enters no phase leaves a ticket in the first. */
  function PhaseIn(events: seq<Event>): string {
    var latest := LatestEntering(events);
    if latest.Some? && latest.value.enters.Some? then latest.value.enters.value else PLAN
  }

  lemma UnphasedIsPlan(events: seq<Event>)
    requires EntersNothing(events)
    ensures PhaseIn(events) == "plan"
  {
    LatestEnteringIs(events);
  }

  /** Only a ticket in progress has a phase. */
  function PhaseOf(issue: Issue, events: seq<Event>): Option<string> {
    if issue.IsContainer() || issue.state != InProgress then None else Some(PhaseIn(events))
  }

  method ReadPhase(issue: Issue, events: seq<Event>) returns (phase: Option<string>)
    ensures phase == PhaseOf(issue, events)
  {
    if issue.IsContainer() || issue.state != InProgress {
      return None;
    }
    var entered := PLAN;
    var latest: Option<Event> := None;
    for i := 0 to |events|
      invariant latest == LatestEntering(events[..i]) && entered == PhaseIn(events[..i])
    {
      assert events[..i + 1][..i] == events[..i];
      if events[i].enters.Some? && (latest.None? || CompareRecency(latest.value, events[i]) < 0) {
        latest, entered := Some(events[i]), events[i].enters.value;
      }
    }
    assert events[..|events|] == events;
    phase := Some(entered);
  }

  // ---- What this machine can prove about its checkouts ----

  datatype Presence = Unprovable | Gone | Live | Locked

  datatype LiveCheckout = LiveCheckout(stream: string, locked: bool)

  datatype LocalCheckouts = LocalCheckouts(workspace: string, live: map<string, Presence>)
  {
    function PresenceOf(at: Attribution): Presence {
      if !Present(at) || at.workspace != workspace then Unprovable
      else if at.stream in live then live[at.stream]
      else Gone
    }

    predicate Void(at: Attribution) { PresenceOf(at) == Gone }
  }

  /** A machine that has enumerated nothing. */
  const NOTHING_ENUMERATED := LocalCheckouts("", map[])

  function FoundIn(live: seq<LiveCheckout>): map<string, Presence> {
    if live == [] then map[]
    else
      var last := live[|live| - 1];
      FoundIn(live[..|live| - 1])[last.stream := if last.locked then Locked else Live]
  }

  method NewLocalCheckouts(workspace: string, live: seq<LiveCheckout>) returns (local: LocalCheckouts)
    ensures local == LocalCheckouts(workspace, FoundIn(live))
  {
    var found: map<string, Presence> := map[];
    for n := 0 to |live|
      invariant found == FoundIn(live[..n])
    {
      assert live[..n + 1][..n] == live[..n];
      var presence := Live;
      if live[n].locked {
        presence := Locked;
      }
      found := found[live[n].stream := presence];
    }
    assert live[..|live|] == live;
    local := LocalCheckouts(workspace, found);
  }

  /** One worktree as git lists it: the token its own git directory holds, whether
      git calls its working tree gone, whether it never had one, and its lock. */
  datatype WorktreeRecord = WorktreeRecord(stream: string, prunable: bool, bare: bool, locked: bool)
  {
    predicate Uninhabited() { prunable || bare }

    /** It is a working tree with an identity. */
    predicate Counts() { !Uninhabited() && stream != "" }
  }

  function Inhabited(records: seq<WorktreeRecord>): seq<LiveCheckout> {
    if records == [] then []
    else
      var last := records[|records| - 1];
      Inhabited(records[..|records| - 1]) + if last.Counts() then [LiveCheckout(last.stream, last.locked)] else []
  }

  /** Git's own listing, less the records it calls uninhabited and the checkouts that
      never drew a token. */
  method LiveCheckouts(records: seq<WorktreeRecord>) returns (live: seq<LiveCheckout>)
    ensures live == Inhabited(records)
  {
    live := [];
    for i := 0 to |records|
      invariant live == Inhabited(records[..i])
    {
      assert records[..i + 1][..i] == records[..i];
      if records[i].Counts() {
        live := live + [LiveCheckout(records[i].stream, records[i].locked)];
      }
    }
    assert records[..|records|] == records;
  }

  /** What this machine makes of git's listing. */
  function Enumerated(workspace: string, records: seq<WorktreeRecord>): LocalCheckouts {
    LocalCheckouts(workspace, FoundIn(Inhabited(records)))
  }

  /** What is enumerated is every working tree with a token, each with its lock. */
  lemma {:induction false} InhabitedIs(records: seq<WorktreeRecord>, found: LiveCheckout)
    ensures found in Inhabited(records) <==>
      found.stream != "" && WorktreeRecord(found.stream, false, false, found.locked) in records
  {
    if records != [] {
      var init, last := records[..|records| - 1], records[|records| - 1];
      assert records == init + [last];
      InhabitedIs(init, found);
    }
  }

  /** Record by record, in git's order. */
  lemma {:induction false} InhabitedInOrder(front: seq<WorktreeRecord>, back: seq<WorktreeRecord>)
    ensures Inhabited(front + back) == Inhabited(front) + Inhabited(back)
    decreases |back|
  {
    if back == [] {
      assert front + back == front;
    } else {
      var init, last := back[..|back| - 1], back[|back| - 1];
      assert (front + back)[..|front + back| - 1] == front + init;
      InhabitedInOrder(front, init);
    }
  }

  lemma {:induction false} InhabitedAre(records: seq<WorktreeRecord>, stream: string)
    ensures (exists i :: 0 <= i < |Inhabited(records)| && Inhabited(records)[i].stream == stream) <==>
      exists record :: record in records && record.stream == stream && record.Counts()
  {
    if records != [] {
      var init, last := records[..|records| - 1], records[|records| - 1];
      assert records == init + [last];
      InhabitedAre(init, stream);
      var live := Inhabited(init);
      assert Inhabited(records) == live + if last.Counts() then [LiveCheckout(last.stream, last.locked)] else [];
      if i :| 0 <= i < |live| && live[i].stream == stream {
        assert Inhabited(records)[i] == live[i];
      } else if last.Counts() {
        assert Inhabited(records)[|live|].stream == last.stream;
      }
    }
  }

  /** A checkout of this workspace is proven gone exactly when every record of git's
      that holds its token is one git calls uninhabited. Nothing else is asked of it:
      it may be the very checkout that is asking. */
  lemma GoneIsUninhabited(workspace: string, records: seq<WorktreeRecord>, at: Attribution)
    ensures Enumerated(workspace, records).Void(at) <==>
      Present(at) && at.workspace == workspace &&
        forall record :: record in records && record.stream == at.stream ==> record.Uninhabited()
  {
    GoneIsUnlisted(workspace, Inhabited(records), at);
    InhabitedAre(records, at.stream);
  }

  /** Only an identified checkout of this workspace that the enumeration did not
      list is proven gone; one it listed reads as its last listing says. */
  lemma {:induction false} GoneIsUnlisted(workspace: string, live: seq<LiveCheckout>, at: Attribution)
    ensures var local := LocalCheckouts(workspace, FoundIn(live));
      && (local.Void(at) <==>
        Present(at) && at.workspace == workspace && forall i :: 0 <= i < |live| ==> live[i].stream != at.stream)
      && (local.PresenceOf(at) == Locked ==> exists i :: 0 <= i < |live| && live[i] == LiveCheckout(at.stream, true))
      && (local.PresenceOf(at) == Unprovable <==> !Present(at) || at.workspace != workspace)
  {
    if live != [] {
      var init := live[..|live| - 1];
      GoneIsUnlisted(workspace, init, at);
      assert live == init + [live[|live| - 1]];
      forall i | 0 <= i < |init| ensures live[i] == init[i] {}
    }
  }

  /** A listed checkout is locked or not as its last listing says. */
  lemma {:induction false} ReadsItsLastListing(workspace: string, live: seq<LiveCheckout>, i: nat, at: Attribution)
    requires Present(at) && at.workspace == workspace && i < |live| && live[i].stream == at.stream
    requires forall j :: i < j < |live| ==> live[j].stream != at.stream
    ensures LocalCheckouts(workspace, FoundIn(live)).PresenceOf(at) == if live[i].locked then Locked else Live
  {
    if i < |live| - 1 {
      var init := live[..|live| - 1];
      assert live[|live| - 1].stream != at.stream;
      forall j | 0 <= j < |init| ensures live[j] == init[j] {}
      ReadsItsLastListing(workspace, init, i, at);
    }
  }
}
