// internal/claims/derive.go: who holds a lane, read off its events.
module Standing {
  import opened Model
  import opened Sorting
  import opened Events
  import Text

  datatype Freshness = Freshness(now: int, window: int)
  {
    predicate Covers(t: int) { t >= now - window }
  }

  datatype Tenure = Tenure(holder: Holder, since: int, lastActivity: int)

  datatype Standing = Unclaimed | Held(tenure: Tenure, contested: seq<Holder>)

  // ---- The predicate's legs, as functions of the lane's events ----

  predicate Unfinished(members: seq<Issue>) { exists m :: m in members && m.InPlay() }

  /** The events left once those of proven-gone checkouts are dropped. */
  function Admissible(events: seq<Event>, local: LocalCheckouts): seq<Event> {
    if events == [] then []
    else
      var last := events[|events| - 1];
      Admissible(events[..|events| - 1], local) + if local.Void(last.attribution) then [] else [last]
  }

  /** The last write to each holder's activity. */
  function Activity(events: seq<Event>): map<Holder, int> {
    if events == [] then map[]
    else
      var last := events[|events| - 1];
      Activity(events[..|events| - 1])[HolderOf(last) := last.createdAt]
  }

  function Establishers(events: seq<Event>): set<Holder> {
    set event | event in events && Establishes(event.action) :: HolderOf(event)
  }

  /** Legs 2 and 3: the last taker among the admissible events, while its last
      act is covered or its worktree locked. */
  function TenureAmong(admissible: seq<Event>, freshness: Freshness, local: LocalCheckouts): Option<Tenure> {
    var establisher := Latest(admissible);
    if establisher.None? then None
    else
      var holder := HolderOf(establisher.value);
      LatestActs(admissible);
      var lastActivity := Activity(admissible)[holder];
      if !freshness.Covers(lastActivity) && local.PresenceOf(holder.checkout) != Locked then None
      else Some(Tenure(holder, establisher.value.createdAt, lastActivity))
  }

  function TenureOf(
    members: seq<Issue>, events: seq<Event>, freshness: Freshness, local: LocalCheckouts): Option<Tenure> {
    if !Unfinished(members) then None else TenureAmong(Admissible(events, local), freshness, local)
  }

  lemma {:induction false} Acts(events: seq<Event>, event: Event)
    requires event in events
    ensures HolderOf(event) in Activity(events)
  {
    var init, last := events[..|events| - 1], events[|events| - 1];
    assert events == init + [last];
    if event != last {
      Acts(init, event);
    }
  }

  lemma LatestActs(events: seq<Event>)
    ensures Latest(events).Some? ==> HolderOf(Latest(events).value) in Activity(events)
  {
    var i := LatestIsNewest(events);
    if Latest(events).Some? {
      Acts(events, events[i]);
    }
  }

  /** The establishers other than the holder whose last act is still covered. */
  function LiveAmong(
    establishers: set<Holder>, holder: Holder, activity: map<Holder, int>, freshness: Freshness): set<Holder> {
    set h | h in establishers && h != holder && h in activity && freshness.Covers(activity[h])
  }

  /** The holders other than the holder with live establishing evidence here. */
  function Rivals(holder: Holder, admissible: seq<Event>, freshness: Freshness): set<Holder> {
    LiveAmong(Establishers(admissible), holder, Activity(admissible), freshness)
  }

  function ActivityOf(activity: map<Holder, int>, h: Holder): int { if h in activity then activity[h] else 0 }

  /** Most recently active first, then by stream and session; the workspace does
      not enter. */
  function CompareContest(activity: map<Holder, int>, a: Holder, b: Holder): int {
    if ActivityOf(activity, a) != ActivityOf(activity, b) then ActivityOf(activity, b) - ActivityOf(activity, a)
    else
      var byStream := Text.Compare(a.checkout.stream, b.checkout.stream);
      if byStream != 0 then byStream else Text.Compare(a.session.actor, b.session.actor)
  }

  function ContestOrder(activity: map<Holder, int>): (Holder, Holder) -> int {
    (a, b) => CompareContest(activity, a, b)
  }

  /** Every rival once, in the contest's order. */
  ghost predicate Ranked(contested: seq<Holder>, rivals: set<Holder>, activity: map<Holder, int>) {
    multiset(contested) == multiset(rivals) && SortedBy(contested, ContestOrder(activity))
  }

  /** st is an answer the derivation may give for the lane: everything but the
      order of exactly tied rivals is determined. */
  ghost predicate Answers(
    st: Standing, members: seq<Issue>, events: seq<Event>, freshness: Freshness, local: LocalCheckouts) {
    match TenureOf(members, events, freshness, local)
    case None => st == Unclaimed
    case Some(tenure) =>
      var admissible := Admissible(events, local);
      st.Held? && st.tenure == tenure &&
      Ranked(st.contested, Rivals(tenure.holder, admissible, freshness), Activity(admissible))
  }

  // ---- The derivation as it runs ----

  lemma TrailsNext(events: seq<Event>, i: nat)
    requires i < |events|
    ensures Activity(events[..i + 1]) == Activity(events[..i])[HolderOf(events[i]) := events[i].createdAt]
    ensures Establishers(events[..i + 1]) ==
      Establishers(events[..i]) + if Establishes(events[i].action) then {HolderOf(events[i])} else {}
  {
    assert events[..i + 1] == events[..i] + [events[i]];
    assert events[..i + 1][..i] == events[..i];
    EstablishersNext(events[..i], events[i]);
  }

  lemma EstablishersNext(events: seq<Event>, event: Event)
    ensures Establishers(events + [event]) ==
      Establishers(events) + if Establishes(event.action) then {HolderOf(event)} else {}
  {
    forall e ensures e in events + [event] <==> e in events || e == event {
    }
  }

  method Trails(events: seq<Event>) returns (activity: map<Holder, int>, establishers: set<Holder>)
    ensures activity == Activity(events) && establishers == Establishers(events)
  {
    activity, establishers := map[], {};
    for i := 0 to |events|
      invariant activity == Activity(events[..i]) && establishers == Establishers(events[..i])
    {
      TrailsNext(events, i);
      var holder := HolderOf(events[i]);
      activity := activity[holder := events[i].createdAt];
      if Establishes(events[i].action) {
        establishers := establishers + {holder};
      }
    }
    assert events[..|events|] == events;
  }

  lemma ContestOrders(activity: map<Holder, int>)
    ensures TotalPreorder(ContestOrder(activity))
  {
    var compare := ContestOrder(activity);
    forall a, b ensures compare(a, b) <= 0 || compare(b, a) <= 0 {
      Text.CompareFlips(a.checkout.stream, b.checkout.stream);
      Text.CompareFlips(a.session.actor, b.session.actor);
    }
    forall a, b, c | compare(a, b) <= 0 && compare(b, c) <= 0 ensures compare(a, c) <= 0 {
      if Text.Compare(a.checkout.stream, b.checkout.stream) <= 0 &&
        Text.Compare(b.checkout.stream, c.checkout.stream) <= 0 {
        Text.CompareTransitive(a.checkout.stream, b.checkout.stream, c.checkout.stream);
      }
      if Text.Compare(a.session.actor, b.session.actor) <= 0 && Text.Compare(b.session.actor, c.session.actor) <= 0 {
        Text.CompareTransitive(a.session.actor, b.session.actor, c.session.actor);
      }
    }
  }

  /** The map of establishers is read in no particular order, then sorted. */
  method Contestants(holder: Holder, activity: map<Holder, int>, establishers: set<Holder>, freshness: Freshness)
    returns (contested: seq<Holder>)
    requires establishers <= activity.Keys
    ensures Ranked(contested, LiveAmong(establishers, holder, activity, freshness), activity)
  {
    contested := [];
    var left := establishers;
    while left != {}
      invariant left <= establishers
      invariant multiset(contested) == multiset(LiveAmong(establishers - left, holder, activity, freshness))
      decreases left
    {
      var candidate :| candidate in left;
      ghost var before := LiveAmong(establishers - left, holder, activity, freshness);
      left := left - {candidate};
      ghost var after := LiveAmong(establishers - left, holder, activity, freshness);
      if candidate != holder && freshness.Covers(activity[candidate]) {
        contested := contested + [candidate];
        assert after == before + {candidate};
      } else {
        assert after == before;
      }
    }
    ContestOrders(activity);
    assert establishers - left == establishers;
    contested := SortFunc(contested, ContestOrder(activity));
  }

  lemma AdmissibleUpto(events: seq<Event>, i: nat, local: LocalCheckouts)
    requires i < |events|
    ensures Admissible(events[..i + 1], local) ==
      if local.Void(events[i].attribution) then Admissible(events[..i], local)
        else Admissible(events[..i], local) + [events[i]]
  {
    assert events[..i + 1][..i] == events[..i];
    assert Admissible(events[..i], local) + [] == Admissible(events[..i], local);
  }

  /** The events of proven-gone checkouts deleted where they stand, the others
      moved down over them: what a derivation does to its own copy of a lane's
      events, never to the evidence. */
  method DeleteVoid(events: array<Event>, local: LocalCheckouts) returns (kept: nat)
    modifies events
    ensures kept <= events.Length && events[..kept] == Admissible(old(events[..]), local)
  {
    kept := 0;
    ghost var was := events[..];
    for i := 0 to events.Length
      invariant kept <= i && events[..kept] == Admissible(was[..i], local)
      invariant forall k :: i <= k < events.Length ==> events[k] == was[k]
    {
      AdmissibleUpto(was, i, local);
      if !local.Void(events[i].attribution) {
        events[kept] := events[i];
        kept := kept + 1;
      }
    }
    assert was[..events.Length] == was;
  }

  method StandingOf(members: seq<Issue>, events: seq<Event>, freshness: Freshness, local: LocalCheckouts)
    returns (st: Standing)
    ensures Answers(st, members, events, freshness, local)
  {
    if !Unfinished(members) {
      return Unclaimed;
    }
    var clone := new Event[|events|](i requires 0 <= i < |events| => events[i]);
    assert clone[..] == events;
    var kept := DeleteVoid(clone, local);
    var admissible := clone[..kept];
    var establisher := LatestEstablisher(admissible);
    if establisher.None? {
      return Unclaimed;
    }
    var holder := HolderOf(establisher.value);
    var activity, establishers := Trails(admissible);
    LatestActs(admissible);
    EstablishersAct(admissible);
    var tenure := Tenure(holder, establisher.value.createdAt, activity[holder]);
    if !freshness.Covers(tenure.lastActivity) && local.PresenceOf(holder.checkout) != Locked {
      return Unclaimed;
    }
    var contested := Contestants(holder, activity, establishers, freshness);
    st := Held(tenure, contested);
  }

  lemma EstablishersAct(events: seq<Event>)
    ensures Establishers(events) <= Activity(events).Keys
  {
    forall h | h in Establishers(events) ensures h in Activity(events) {
      var event :| event in events && Establishes(event.action) && HolderOf(event) == h;
      Acts(events, event);
    }
  }
}
