// What the derivation of a standing means, and how it moves as history grows,
// clocks advance and checkouts disappear.
module StandingLaws {
  import opened Model
  import opened Sorting
  import opened Events
  import opened Standing
  import Text

  // ---- Dropping the disproven events ----

  lemma AdmissibleLast(events: seq<Event>, event: Event, local: LocalCheckouts)
    ensures Admissible(events + [event], local) ==
      Admissible(events, local) + if local.Void(event.attribution) then [] else [event]
  {
    assert (events + [event])[..|events|] == events;
  }

  lemma {:induction false} AdmissibleKeeps(events: seq<Event>, local: LocalCheckouts, event: Event)
    ensures multiset(Admissible(events, local))[event] ==
      if local.Void(event.attribution) then 0 else multiset(events)[event]
    ensures event in Admissible(events, local) <==> event in events && !local.Void(event.attribution)
  {
    if events != [] {
      var init, last := events[..|events| - 1], events[|events| - 1];
      assert events == init + [last];
      AdmissibleKeeps(init, local, event);
    }
  }

  lemma {:induction false} AdmissibleSorted(events: seq<Event>, local: LocalCheckouts)
    requires OldestFirst(events)
    ensures OldestFirst(Admissible(events, local))
  {
    if events != [] {
      var init, last := events[..|events| - 1], events[|events| - 1];
      InitSorted(events);
      AdmissibleSorted(init, local);
      forall event | event in Admissible(init, local) ensures CompareRecency(event, last) <= 0 {
        AdmissibleKeeps(init, local, event);
        OlderThanLast(events, event);
      }
      LastSorted(Admissible(init, local), last);
    }
  }

  lemma InitSorted(events: seq<Event>)
    requires OldestFirst(events) && events != []
    ensures OldestFirst(events[..|events| - 1])
  {
  }

  lemma OlderThanLast(events: seq<Event>, event: Event)
    requires OldestFirst(events) && events != [] && event in events[..|events| - 1]
    ensures CompareRecency(event, events[|events| - 1]) <= 0
  {
    var i :| 0 <= i < |events| - 1 && events[i] == event;
  }

  lemma LastSorted(init: seq<Event>, last: Event)
    requires OldestFirst(init) && forall event :: event in init ==> CompareRecency(event, last) <= 0
    ensures OldestFirst(init + [last]) && OldestFirst(init + [])
  {
    assert init + [] == init;
  }

  lemma {:induction false} AdmissibleTwice(events: seq<Event>, local: LocalCheckouts)
    ensures Admissible(Admissible(events, local), local) == Admissible(events, local)
  {
    if events != [] {
      var init, last := events[..|events| - 1], events[|events| - 1];
      AdmissibleTwice(init, local);
      AdmissibleLast(Admissible(init, local), last, local);
      assert Admissible(init, local) + [] == Admissible(init, local);
    }
  }

  // ---- The scan and the fold, by what they find ----

  ghost predicate LastActed(events: seq<Event>, h: Holder, at: int) {
    && (forall event :: event in events && HolderOf(event) == h ==> event.createdAt <= at)
    && (exists event :: event in events && HolderOf(event) == h && event.createdAt == at)
  }

  /** In an ordered history the last write to a holder's activity is its newest act. */
  lemma {:induction false} ActivityIsLast(events: seq<Event>, h: Holder)
    requires OldestFirst(events)
    ensures h in Activity(events) <==> exists event :: event in events && HolderOf(event) == h
    ensures h in Activity(events) ==> LastActed(events, h, Activity(events)[h])
  {
    if events != [] {
      var init, last := events[..|events| - 1], events[|events| - 1];
      assert events == init + [last];
      NewestLast(init, last);
      ActivityIsLast(init, h);
      ActivityOfNext(init, last, events);
      LastActedNext(init, last, h, Activity(init), Activity(events));
    }
  }

  lemma LastActedNext(init: seq<Event>, last: Event, h: Holder, before: map<Holder, int>, after: map<Holder, int>)
    requires forall e :: e in init ==> e.createdAt <= last.createdAt
    requires h in before <==> exists event :: event in init && HolderOf(event) == h
    requires h in before ==> LastActed(init, h, before[h])
    requires after == before[HolderOf(last) := last.createdAt]
    ensures h in after <==> exists event :: event in init + [last] && HolderOf(event) == h
    ensures h in after ==> LastActed(init + [last], h, after[h])
  {
    ActsNext(init, last, h);
  }

  lemma ActsNext(init: seq<Event>, last: Event, h: Holder)
    requires forall e :: e in init ==> e.createdAt <= last.createdAt
    ensures HolderOf(last) == h ==> LastActed(init + [last], h, last.createdAt)
    ensures HolderOf(last) != h ==> forall at :: LastActed(init, h, at) ==> LastActed(init + [last], h, at)
    ensures (exists event :: event in init + [last] && HolderOf(event) == h) <==>
      HolderOf(last) == h || exists event :: event in init && HolderOf(event) == h
  {
    assert last in init + [last];
    assert forall event :: event in init ==> event in init + [last];
  }

  /** An event the scan found stays found when others are dropped around it. */
  lemma {:induction false} LatestSurvives(events: seq<Event>, local: LocalCheckouts)
    requires Latest(events).Some? && !local.Void(Latest(events).value.attribution)
    ensures Latest(Admissible(events, local)) == Latest(events)
  {
    var init, last := events[..|events| - 1], events[|events| - 1];
    var kept := Admissible(init, local);
    AdmissibleLast(init, last, local);
    assert events == init + [last];
    assert (kept + [last])[..|kept|] == kept && kept + [] == kept;
    if Latest(events) == Latest(init) {
      LatestSurvives(init, local);
    } else {
      NewestOfAll(init, kept, last, local);
    }
  }

  lemma NewestOfAll(init: seq<Event>, kept: seq<Event>, last: Event, local: LocalCheckouts)
    requires kept == Admissible(init, local) && (Latest(init).Some? ==> CompareRecency(Latest(init).value, last) < 0)
    ensures Latest(kept).Some? ==> CompareRecency(Latest(kept).value, last) < 0
  {
    var i := LatestIsNewest(init);
    var k := LatestIsNewest(kept);
    if Latest(kept).Some? {
      AdmissibleKeeps(init, local, kept[k]);
      assert kept[k] in init;
      NoNewer(init, i, kept[k]);
      RecencyIsTransitive(kept[k], init[i], last);
    }
  }

  // ---- The reference reading: the four legs, over the lane's whole history ----

  /** Event i is the newest establishing event no proven-gone checkout recorded. */
  ghost predicate NewestTaking(events: seq<Event>, i: nat, local: LocalCheckouts) {
    && i < |events| && Establishes(events[i].action) && !local.Void(events[i].attribution)
    && (forall j :: 0 <= j < |events| && Establishes(events[j].action) && !local.Void(events[j].attribution) ==>
          CompareRecency(events[j], events[i]) <= 0)
  }

  ghost predicate Holds(
    members: seq<Issue>, events: seq<Event>, freshness: Freshness, local: LocalCheckouts, tenure: Tenure) {
    && (exists m :: m in members && !m.frozen && m.state != Closed)
    && TookLast(events, local, tenure.holder, tenure.since)
    && LastActed(events, tenure.holder, tenure.lastActivity)
    && (freshness.now - tenure.lastActivity <= freshness.window ||
        local.PresenceOf(tenure.holder.checkout) == Locked)
  }

  lemma NewestTakingIsLatest(events: seq<Event>, i: nat, local: LocalCheckouts)
    requires NewestTaking(events, i, local) && Keyed(multiset(events))
    ensures Latest(Admissible(events, local)) == Some(events[i])
  {
    var kept := Admissible(events, local);
    var k := LatestIsNewest(kept);
    AdmissibleKeeps(events, local, events[i]);
    assert events[i] in kept;
    AdmissibleKeeps(events, local, kept[k]);
    var j :| 0 <= j < |events| && events[j] == kept[k];
    var m :| 0 <= m < |kept| && kept[m] == events[i];
    SameKey(multiset(events), events[i], kept[k]);
  }

  lemma SameKey(events: multiset<Event>, a: Event, b: Event)
    requires Keyed(events) && a in events && b in events && CompareRecency(a, b) <= 0 && CompareRecency(b, a) <= 0
    ensures a == b
  {
    Text.CompareFlips(a.id, b.id);
  }

  lemma LatestIsNewestTaking(events: seq<Event>, local: LocalCheckouts) returns (i: nat)
    requires Latest(Admissible(events, local)).Some?
    ensures NewestTaking(events, i, local) && Latest(Admissible(events, local)) == Some(events[i])
  {
    var kept := Admissible(events, local);
    var k := LatestIsNewest(kept);
    AdmissibleKeeps(events, local, kept[k]);
    i :| 0 <= i < |events| && events[i] == kept[k];
    forall j | 0 <= j < |events| && Establishes(events[j].action) && !local.Void(events[j].attribution)
      ensures CompareRecency(events[j], events[i]) <= 0
    {
      AdmissibleKeeps(events, local, events[j]);
      NoNewer(kept, k, events[j]);
    }
  }

  lemma NoNewer(events: seq<Event>, k: nat, event: Event)
    requires IsLatest(events, k) && event in events && Establishes(event.action)
    ensures CompareRecency(event, events[k]) <= 0
  {
    var m :| 0 <= m < |events| && events[m] == event;
  }

  lemma AdmissibleActivity(events: seq<Event>, local: LocalCheckouts, h: Holder, at: int)
    requires OldestFirst(events) && !local.Void(h.checkout) && h in Activity(Admissible(events, local))
    ensures Activity(Admissible(events, local))[h] == at <==> LastActed(events, h, at)
  {
    var kept := Admissible(events, local);
    AdmissibleSorted(events, local);
    ActivityIsLast(kept, h);
    forall event | HolderOf(event) == h ensures event in kept <==> event in events {
      AdmissibleKeeps(events, local, event);
    }
  }

  /** The derivation holds a lane for exactly the tenure the four legs describe:
      the filter-then-scan-then-fold is the definition, read off the history. */
  lemma HeldIsTheFourLegs(
    members: seq<Issue>, events: seq<Event>, freshness: Freshness, local: LocalCheckouts, tenure: Tenure)
    requires OldestFirst(events) && Keyed(multiset(events))
    ensures TenureOf(members, events, freshness, local) == Some(tenure) <==>
      Holds(members, events, freshness, local, tenure)
  {
    LatestActs(Admissible(events, local));
    TakerIsLatest(events, local, tenure.holder, tenure.since);
    if Latest(Admissible(events, local)).Some? {
      var i := LatestIsNewestTaking(events, local);
      AdmissibleActivity(events, local, HolderOf(events[i]), tenure.lastActivity);
    }
  }

  ghost predicate TookLast(events: seq<Event>, local: LocalCheckouts, holder: Holder, since: int) {
    exists i: nat :: NewestTaking(events, i, local) && holder == HolderOf(events[i]) && since == events[i].createdAt
  }

  lemma TakerIsLatest(events: seq<Event>, local: LocalCheckouts, holder: Holder, since: int)
    requires Keyed(multiset(events))
    ensures TookLast(events, local, holder, since) <==>
      var latest := Latest(Admissible(events, local));
      latest.Some? && HolderOf(latest.value) == holder && latest.value.createdAt == since
  {
    if TookLast(events, local, holder, since) {
      var i: nat :| NewestTaking(events, i, local) && holder == HolderOf(events[i]) && since == events[i].createdAt;
      NewestTakingIsLatest(events, i, local);
    }
    if Latest(Admissible(events, local)).Some? {
      var i := LatestIsNewestTaking(events, local);
    }
  }

  /** A holder whose worktree is not locked holds for as long as its last act is no
      older than the window, to the instant. */
  lemma HoldsForTheWindow(
    members: seq<Issue>, events: seq<Event>, freshness: Freshness, local: LocalCheckouts, tenure: Tenure)
    requires OldestFirst(events) && Keyed(multiset(events))
    requires exists m :: m in members && !m.frozen && m.state != Closed
    requires TookLast(events, local, tenure.holder, tenure.since)
    requires LastActed(events, tenure.holder, tenure.lastActivity)
    requires local.PresenceOf(tenure.holder.checkout) != Locked
    ensures TenureOf(members, events, freshness, local) ==
      if freshness.now - tenure.lastActivity <= freshness.window then Some(tenure) else None
  {
    HeldIsTheFourLegs(members, events, freshness, local, tenure);
    var held := TenureOf(members, events, freshness, local);
    if held.Some? {
      HeldIsTheFourLegs(members, events, freshness, local, held.value);
      OneTaker(events, local, tenure, held.value);
    }
  }

  lemma OneTaker(events: seq<Event>, local: LocalCheckouts, a: Tenure, b: Tenure)
    requires Keyed(multiset(events))
    requires TookLast(events, local, a.holder, a.since) && TookLast(events, local, b.holder, b.since)
    requires LastActed(events, a.holder, a.lastActivity) && LastActed(events, b.holder, b.lastActivity)
    ensures a == b
  {
    TakerIsLatest(events, local, a.holder, a.since);
    TakerIsLatest(events, local, b.holder, b.since);
  }

  /** A wider window ends no hold, and changes nothing of one. */
  lemma WiderWindowEndsNoHold(
    members: seq<Issue>, events: seq<Event>, freshness: Freshness, wider: int, local: LocalCheckouts)
    requires wider >= freshness.window
    ensures var held := TenureOf(members, events, freshness, local);
      held.Some? ==> TenureOf(members, events, freshness.(window := wider), local) == held
  {
  }

  // ---- The contest, over the lane's whole history ----

  ghost predicate Took(events: seq<Event>, h: Holder) {
    exists event :: event in events && Establishes(event.action) && HolderOf(event) == h
  }

  ghost predicate ActedWithin(events: seq<Event>, h: Holder, freshness: Freshness) {
    exists at :: LastActed(events, h, at) && freshness.now - at <= freshness.window
  }

  /** Contesting a held lane is everybody else who ever took it, is not proven gone, and
      last acted within the window: each once. */
  lemma ContestIs(
    st: Standing, members: seq<Issue>, events: seq<Event>, freshness: Freshness, local: LocalCheckouts, h: Holder)
    requires OldestFirst(events) && Answers(st, members, events, freshness, local) && st.Held?
    ensures h in st.contested <==>
      h != st.tenure.holder && !local.Void(h.checkout) && Took(events, h) && ActedWithin(events, h, freshness)
    ensures multiset(st.contested)[h] <= 1
  {
    var kept := Admissible(events, local);
    assert h in st.contested <==> h in multiset(st.contested);
    EstablishersAre(events, local, h);
    if h in Activity(kept) && !local.Void(h.checkout) {
      AdmissibleActivity(events, local, h, Activity(kept)[h]);
      ActsOnce(events, h, Activity(kept)[h], freshness);
    }
    EstablishersAct(kept);
  }

  lemma ActsOnce(events: seq<Event>, h: Holder, at: int, freshness: Freshness)
    requires LastActed(events, h, at)
    ensures ActedWithin(events, h, freshness) <==> freshness.now - at <= freshness.window
  {
  }

  lemma EstablishersAre(events: seq<Event>, local: LocalCheckouts, h: Holder)
    ensures h in Establishers(Admissible(events, local)) <==> !local.Void(h.checkout) && Took(events, h)
  {
    var kept := Admissible(events, local);
    if h in Establishers(kept) {
      var event :| event in kept && Establishes(event.action) && HolderOf(event) == h;
      AdmissibleKeeps(events, local, event);
    }
    if event :| event in events && Establishes(event.action) && HolderOf(event) == h {
      AdmissibleKeeps(events, local, event);
    }
  }

  /** Whoever acted more recently comes first; of those that tie, the stream and then
      the session decide. */
  lemma ContestIsMostRecentFirst(
    st: Standing, members: seq<Issue>, events: seq<Event>, freshness: Freshness, local: LocalCheckouts, i: nat, j: nat,
    x: int, y: int)
    requires OldestFirst(events) && Answers(st, members, events, freshness, local) && st.Held?
    requires i < j < |st.contested|
    requires LastActed(events, st.contested[i], x) && LastActed(events, st.contested[j], y)
    ensures x >= y
    ensures x == y ==> Text.Compare(st.contested[i].checkout.stream, st.contested[j].checkout.stream) <= 0
    ensures x == y && st.contested[i].checkout.stream == st.contested[j].checkout.stream ==>
      Text.Compare(st.contested[i].session.actor, st.contested[j].session.actor) <= 0
  {
    ContestantActed(st, members, events, freshness, local, i, x);
    ContestantActed(st, members, events, freshness, local, j, y);
    var activity := Activity(Admissible(events, local));
    assert ContestOrder(activity)(st.contested[i], st.contested[j]) <= 0;
  }

  lemma ContestantActed(
    st: Standing, members: seq<Issue>, events: seq<Event>, freshness: Freshness, local: LocalCheckouts, i: nat, at: int)
    requires OldestFirst(events) && Answers(st, members, events, freshness, local) && st.Held?
    requires i < |st.contested| && LastActed(events, st.contested[i], at)
    ensures ActivityOf(Activity(Admissible(events, local)), st.contested[i]) == at
  {
    var kept, h := Admissible(events, local), st.contested[i];
    assert h in multiset(st.contested);
    EstablishersAre(events, local, h);
    AdmissibleActivity(events, local, h, at);
  }

  // ---- What is determined ----

  /** The comparator tells every two of them apart. */
  ghost predicate NoTies(rivals: set<Holder>, activity: map<Holder, int>) {
    forall x, y :: x in rivals && y in rivals && x != y ==> CompareContest(activity, x, y) != 0
  }

  /** The contest a history leaves its holder, if anybody holds the lane. */
  ghost function RivalsOf(
    members: seq<Issue>, events: seq<Event>, freshness: Freshness, local: LocalCheckouts): set<Holder> {
    match TenureOf(members, events, freshness, local)
    case None => {}
    case Some(tenure) => Rivals(tenure.holder, Admissible(events, local), freshness)
  }

  /** The comparator ties two holders exactly when they share their last instant,
      stream and session, and so differ only in the workspace. */
  lemma TiesDifferInWorkspace(activity: map<Holder, int>, x: Holder, y: Holder)
    ensures x != y && CompareContest(activity, x, y) == 0 <==>
      ActivityOf(activity, x) == ActivityOf(activity, y) && x.checkout.stream == y.checkout.stream &&
      x.session == y.session && x.checkout.workspace != y.checkout.workspace
  {
  }

  lemma AnswersShare(
    a: Standing, b: Standing, members: seq<Issue>, events: seq<Event>, freshness: Freshness, local: LocalCheckouts)
    requires Answers(a, members, events, freshness, local) && Answers(b, members, events, freshness, local)
    ensures a.Held? == b.Held?
    ensures a.Held? ==> a.tenure == b.tenure && multiset(a.contested) == multiset(b.contested)
  {
  }

  lemma NoTiesNoChoice(a: seq<Holder>, b: seq<Holder>, rivals: set<Holder>, activity: map<Holder, int>)
    requires Ranked(a, rivals, activity) && Ranked(b, rivals, activity) && NoTies(rivals, activity)
    ensures a == b
  {
    forall x, y | x in a && y in a && ContestOrder(activity)(x, y) <= 0 && ContestOrder(activity)(y, x) <= 0
      ensures x == y
    {
      Text.CompareFlips(x.checkout.stream, y.checkout.stream);
      Text.CompareFlips(x.session.actor, y.session.actor);
      assert x in multiset(a) && y in multiset(a);
    }
    SortIsUnique(a, b, ContestOrder(activity));
  }

  function Swapped<T>(s: seq<T>, i: nat, j: nat): seq<T>
    requires i < |s| && j < |s|
  {
    s[i := s[j]][j := s[i]]
  }

  /** Two tied members of a ranking may change places: everything between them is
      tied with them. */
  lemma TiedSwap<T(!new)>(s: seq<T>, i: nat, j: nat, compare: (T, T) -> int)
    requires TotalPreorder(compare) && SortedBy(s, compare) && i < j < |s| && compare(s[j], s[i]) <= 0
    ensures SortedBy(Swapped(s, i, j), compare) && multiset(Swapped(s, i, j)) == multiset(s)
  {
    TiedSwapSorted(s, i, j, compare);
  }

  lemma TiedSwapSorted<T(!new)>(s: seq<T>, i: nat, j: nat, compare: (T, T) -> int)
    requires TotalPreorder(compare) && SortedBy(s, compare) && i < j < |s| && compare(s[j], s[i]) <= 0
    ensures SortedBy(Swapped(s, i, j), compare)
  {
    forall k | i <= k <= j ensures compare(s[k], s[i]) <= 0 && compare(s[j], s[k]) <= 0 {
      assert compare(s[k], s[j]) <= 0 && compare(s[i], s[k]) <= 0;
    }
  }

  lemma TieAt(a: seq<Holder>, rivals: set<Holder>, activity: map<Holder, int>) returns (i: nat, j: nat)
    requires Ranked(a, rivals, activity) && !NoTies(rivals, activity)
    ensures i < j < |a| && a[i] != a[j] && CompareContest(activity, a[j], a[i]) == 0
  {
    var x, y :| x in rivals && y in rivals && x != y && CompareContest(activity, x, y) == 0;
    TiesGoBothWays(activity, x, y);
    assert x in multiset(a) && y in multiset(a);
    i :| 0 <= i < |a| && a[i] == x;
    j :| 0 <= j < |a| && a[j] == y;
    if j < i {
      i, j := j, i;
    }
  }

  lemma TiesGoBothWays(activity: map<Holder, int>, x: Holder, y: Holder)
    requires CompareContest(activity, x, y) == 0
    ensures CompareContest(activity, y, x) == 0
  {
    Text.CompareFlips(x.checkout.stream, y.checkout.stream);
    Text.CompareFlips(x.session.actor, y.session.actor);
  }

  lemma TieIsAChoice(a: seq<Holder>, rivals: set<Holder>, activity: map<Holder, int>) returns (b: seq<Holder>)
    requires Ranked(a, rivals, activity) && !NoTies(rivals, activity)
    ensures Ranked(b, rivals, activity) && b != a
  {
    var i, j := TieAt(a, rivals, activity);
    ContestOrders(activity);
    TiedSwap(a, i, j, ContestOrder(activity));
    b := Swapped(a, i, j);
    assert b[i] != a[i];
  }

  /** Two derivations of one lane agree on the holder, its tenure and who contests it.
      They agree on the contest's order too exactly when no two of the rivals the
      history leaves are tied: tied ones may come out either way round. */
  lemma AnswersAgree(a: Standing, members: seq<Issue>, events: seq<Event>, freshness: Freshness, local: LocalCheckouts)
    requires Answers(a, members, events, freshness, local)
    ensures forall b :: Answers(b, members, events, freshness, local) ==>
      a.Held? == b.Held? && (a.Held? ==> a.tenure == b.tenure && multiset(a.contested) == multiset(b.contested))
    ensures (forall b :: Answers(b, members, events, freshness, local) ==> b == a) <==>
      NoTies(RivalsOf(members, events, freshness, local), Activity(Admissible(events, local)))
  {
    var rivals, activity := RivalsOf(members, events, freshness, local), Activity(Admissible(events, local));
    forall b | Answers(b, members, events, freshness, local)
      ensures a.Held? == b.Held? && (a.Held? ==> a.tenure == b.tenure && multiset(a.contested) == multiset(b.contested))
      ensures NoTies(rivals, activity) ==> b == a
    {
      AnswersShare(a, b, members, events, freshness, local);
      if a.Held? && NoTies(rivals, activity) {
        NoTiesNoChoice(a.contested, b.contested, rivals, activity);
      }
    }
    if !NoTies(rivals, activity) {
      var contested := TieIsAChoice(a.contested, rivals, activity);
      assert Answers(a.(contested := contested), members, events, freshness, local);
    }
  }

  /** Ties happen: two workspaces that share a stream token start tickets of a lane in
      one instant, before a third checkout takes it. */
  lemma TiedContest() returns (members: seq<Issue>, events: seq<Event>, freshness: Freshness)
    ensures OldestFirst(events) && Keyed(multiset(events))
    ensures TenureOf(members, events, freshness, NOTHING_ENUMERATED).Some?
    ensures !NoTies(RivalsOf(members, events, freshness, NOTHING_ENUMERATED),
      Activity(Admissible(events, NOTHING_ENUMERATED)))
  {
    freshness, members := Freshness(2, 5), [Issue("a", Task, "", InProgress, false, "")];
    assert members[0].InPlay();
    events := ThreeStarts(members, "1", "2", "s", "t", "w", "x", freshness);
  }

  lemma ThreeStarts(
    members: seq<Issue>, before: string, after: string, stream: string, other: string, workspace: string,
    another: string, freshness: Freshness)
    returns (events: seq<Event>)
    requires Unfinished(members) && freshness.Covers(1) && Text.Compare(before, after) < 0
    requires stream != other && workspace != another && "" !in [stream, other, workspace, another]
    ensures OldestFirst(events) && Keyed(multiset(events))
    ensures TenureOf(members, events, freshness, NOTHING_ENUMERATED).Some?
    ensures !NoTies(RivalsOf(members, events, freshness, NOTHING_ENUMERATED),
      Activity(Admissible(events, NOTHING_ENUMERATED)))
  {
    var a, b, c := Event(before, "a", START, "", Pair(stream, workspace), 1, None),
      Event(after, "b", START, "", Pair(stream, another), 1, None),
      Event("3", "c", START, "", Pair(other, workspace), 2, None);
    events := [a, b, c];
    ThreeInOrder(a, b, c);
    ThreeTied(members, a, b, c, freshness);
  }

  lemma ThreeInOrder(a: Event, b: Event, c: Event)
    requires a.createdAt == b.createdAt < c.createdAt && Text.Compare(a.id, b.id) < 0
    ensures OldestFirst([a, b, c]) && Keyed(multiset([a, b, c]))
  {
    forall x: Event, y: Event | x in multiset([a, b, c]) && y in multiset([a, b, c]) && x.createdAt == y.createdAt &&
      x.id == y.id
      ensures x == y
    {
      assert x in [a, b, c] && y in [a, b, c];
    }
  }

  lemma LatestNext(init: seq<Event>, last: Event)
    ensures Latest(init + [last]) == LatestFrom(Latest(init), last)
    ensures Activity(init + [last]) == Activity(init)[HolderOf(last) := last.createdAt]
  {
    assert (init + [last])[..|init|] == init;
  }

  lemma LatestOfThree(a: Event, b: Event, c: Event)
    requires Establishes(c.action) && a.createdAt == b.createdAt < c.createdAt
    ensures Latest([a, b, c]) == Some(c)
  {
    LatestNext([a, b], c);
    assert [a, b, c] == [a, b] + [c];
    var i := LatestIsNewest([a, b]);
    assert Latest([a, b]).Some? ==> Latest([a, b]).value == a || Latest([a, b]).value == b;
  }

  lemma ActivityOfThree(a: Event, b: Event, c: Event)
    ensures Activity([a, b, c]) ==
      map[][HolderOf(a) := a.createdAt][HolderOf(b) := b.createdAt][HolderOf(c) := c.createdAt]
  {
    ActivityOfNext([], a, [a]);
    ActivityOfNext([a], b, [a, b]);
    ActivityOfNext([a, b], c, [a, b, c]);
  }

  lemma ActivityOfNext(init: seq<Event>, last: Event, longer: seq<Event>)
    requires longer == init + [last]
    ensures Activity(longer) == Activity(init)[HolderOf(last) := last.createdAt]
  {
    LatestNext(init, last);
  }

  lemma ThreeTied(members: seq<Issue>, a: Event, b: Event, c: Event, freshness: Freshness)
    requires Unfinished(members) && freshness.Covers(a.createdAt) && a.createdAt == b.createdAt < c.createdAt
    requires Establishes(a.action) && Establishes(b.action) && Establishes(c.action)
    requires HolderOf(a) != HolderOf(b) && HolderOf(a) != HolderOf(c) && HolderOf(b) != HolderOf(c)
    requires a.attribution.stream == b.attribution.stream && SessionOf(a.actor) == SessionOf(b.actor)
    ensures TenureOf(members, [a, b, c], freshness, NOTHING_ENUMERATED).Some?
    ensures !NoTies(RivalsOf(members, [a, b, c], freshness, NOTHING_ENUMERATED),
      Activity(Admissible([a, b, c], NOTHING_ENUMERATED)))
  {
    var events := [a, b, c];
    LatestOfThree(a, b, c);
    ActivityOfThree(a, b, c);
    NothingVoid(events);
    TwoRivals(events, a, b, c, freshness);
    HeldByTheLast(members, events, c, freshness, NOTHING_ENUMERATED);
  }

  lemma HeldByTheLast(
    members: seq<Issue>, events: seq<Event>, c: Event, freshness: Freshness, local: LocalCheckouts)
    requires Unfinished(members) && Admissible(events, local) == events && Latest(events) == Some(c)
    requires HolderOf(c) in Activity(events) && freshness.Covers(Activity(events)[HolderOf(c)])
    ensures TenureOf(members, events, freshness, local).Some?
    ensures RivalsOf(members, events, freshness, local) == Rivals(HolderOf(c), events, freshness)
  {
    HeldAmong(events, c, freshness, local);
  }

  lemma HeldAmong(events: seq<Event>, c: Event, freshness: Freshness, local: LocalCheckouts)
    requires Latest(events) == Some(c)
    requires HolderOf(c) in Activity(events) && freshness.Covers(Activity(events)[HolderOf(c)])
    ensures TenureAmong(events, freshness, local).Some?
    ensures TenureAmong(events, freshness, local).value.holder == HolderOf(c)
  {
  }

  lemma TwoRivals(events: seq<Event>, a: Event, b: Event, c: Event, freshness: Freshness)
    requires events == [a, b, c] && freshness.Covers(a.createdAt) && a.createdAt == b.createdAt
    requires Activity(events) ==
      map[][HolderOf(a) := a.createdAt][HolderOf(b) := b.createdAt][HolderOf(c) := c.createdAt]
    requires Establishes(a.action) && Establishes(b.action)
    requires HolderOf(a) != HolderOf(b) && HolderOf(a) != HolderOf(c) && HolderOf(b) != HolderOf(c)
    requires a.attribution.stream == b.attribution.stream && SessionOf(a.actor) == SessionOf(b.actor)
    ensures !NoTies(Rivals(HolderOf(c), events, freshness), Activity(events))
  {
    var rivals, activity := Rivals(HolderOf(c), events, freshness), Activity(events);
    assert a in events && b in events;
    assert HolderOf(a) in rivals && HolderOf(b) in rivals && CompareContest(activity, HolderOf(a), HolderOf(b)) == 0;
  }

  // ---- How a standing moves ----

  /** Erasing what proven-gone checkouts recorded changes no answer: a voided
      event counts for as much as one never recorded. */
  lemma VoidingIsErasing(
    st: Standing, members: seq<Issue>, events: seq<Event>, freshness: Freshness, local: LocalCheckouts)
    ensures Answers(st, members, events, freshness, local) <==>
      Answers(st, members, Admissible(events, local), freshness, local)
    ensures st.Held? && Answers(st, members, events, freshness, local) ==> !local.Void(st.tenure.holder.checkout)
  {
    AdmissibleTwice(events, local);
    if Latest(Admissible(events, local)).Some? {
      var i := LatestIsNewestTaking(events, local);
    }
  }

  /** A machine that has enumerated nothing derives by freshness alone: the last
      to take an unfinished lane holds it just while its last act is covered. */
  lemma WithoutEnumerationFreshnessGoverns(members: seq<Issue>, events: seq<Event>, freshness: Freshness)
    ensures Admissible(events, NOTHING_ENUMERATED) == events
    ensures TenureOf(members, events, freshness, NOTHING_ENUMERATED).Some? <==>
      Unfinished(members) && Latest(events).Some? &&
      HolderOf(Latest(events).value) in Activity(events) &&
        freshness.Covers(Activity(events)[HolderOf(Latest(events).value)])
  {
    NothingVoid(events);
    LatestActs(events);
  }

  lemma {:induction false} NothingVoid(events: seq<Event>)
    ensures Admissible(events, NOTHING_ENUMERATED) == events
  {
    if events != [] {
      var init, last := events[..|events| - 1], events[|events| - 1];
      NothingVoid(init);
      VoidsNothing(last.attribution);
      assert events == init + [last];
    }
  }

  lemma VoidsNothing(at: Attribution)
    ensures !NOTHING_ENUMERATED.Void(at)
  {
  }

  /** A newest event that takes nothing keeps a holder a holder, its tenure no
      staler, and makes nobody a holder but its own producer, and only where the
      producer is the last admissible taker. */
  lemma CommentaryTakesNothing(
    members: seq<Issue>, events: seq<Event>, event: Event, freshness: Freshness, local: LocalCheckouts)
    requires OldestFirst(events + [event]) && !Establishes(event.action)
    ensures var before, after :=
      TenureOf(members, events, freshness, local), TenureOf(members, events + [event], freshness, local);
      && (before.Some? ==>
        after.Some? && after.value.holder == before.value.holder && after.value.since == before.value.since &&
        after.value.lastActivity >= before.value.lastActivity)
      && (before.None? && after.Some? ==>
        after.value.holder == HolderOf(event) && !local.Void(event.attribution) &&
        Latest(Admissible(events, local)).Some? &&
        HolderOf(Latest(Admissible(events, local)).value) == HolderOf(event))
  {
    AdmissibleNext(events, event, local);
    CommentaryAmong(Admissible(events, local), event, freshness, local);
  }

  lemma AdmissibleNext(events: seq<Event>, event: Event, local: LocalCheckouts)
    requires OldestFirst(events + [event])
    ensures OldestFirst(Admissible(events, local))
    ensures forall e :: e in Admissible(events, local) ==> e.createdAt <= event.createdAt
    ensures Admissible(events + [event], local) ==
      if local.Void(event.attribution) then Admissible(events, local) else Admissible(events, local) + [event]
  {
    AdmissibleGrows(events, event, local);
    AdmissibleBefore(events, event, local);
  }

  lemma AdmissibleGrows(events: seq<Event>, event: Event, local: LocalCheckouts)
    ensures Admissible(events + [event], local) ==
      if local.Void(event.attribution) then Admissible(events, local) else Admissible(events, local) + [event]
  {
    AdmissibleLast(events, event, local);
    assert Admissible(events, local) + [] == Admissible(events, local);
  }

  lemma AdmissibleBefore(events: seq<Event>, event: Event, local: LocalCheckouts)
    requires OldestFirst(events + [event])
    ensures OldestFirst(Admissible(events, local))
    ensures forall e :: e in Admissible(events, local) ==> e.createdAt <= event.createdAt
  {
    NewestLast(events, event);
    AdmissibleSorted(events, local);
    AdmissibleSince(events, event.createdAt, local);
  }

  lemma AdmissibleSince(events: seq<Event>, at: int, local: LocalCheckouts)
    requires forall e :: e in events ==> e.createdAt <= at
    ensures forall e :: e in Admissible(events, local) ==> e.createdAt <= at
  {
    forall e | e in Admissible(events, local) ensures e.createdAt <= at {
      AdmissibleKeeps(events, local, e);
    }
  }

  lemma CommentaryAmong(kept: seq<Event>, event: Event, freshness: Freshness, local: LocalCheckouts)
    requires OldestFirst(kept) && !Establishes(event.action)
    requires forall e :: e in kept ==> e.createdAt <= event.createdAt
    ensures Latest(kept + [event]) == Latest(kept)
    ensures var before, after := TenureAmong(kept, freshness, local), TenureAmong(kept + [event], freshness, local);
      && (before.Some? ==>
        after.Some? && after.value.holder == before.value.holder && after.value.since == before.value.since &&
        after.value.lastActivity >= before.value.lastActivity)
      && (before.None? && after.Some? ==> after.value.holder == HolderOf(event))
  {
    assert (kept + [event])[..|kept|] == kept;
    LatestActs(kept);
    if Latest(kept).Some? {
      ActivityIsLast(kept, HolderOf(Latest(kept).value));
    }
  }

  lemma NewestLast(events: seq<Event>, event: Event)
    requires OldestFirst(events + [event])
    ensures OldestFirst(events) && forall e :: e in events ==> e.createdAt <= event.createdAt
  {
    var longer := events + [event];
    assert longer[..|longer| - 1] == events;
    InitSorted(longer);
    forall e | e in events ensures e.createdAt <= event.createdAt {
      OlderThanLast(longer, e);
    }
  }

  /** It contests nothing new either, unless its producer once took the lane. */
  lemma CommentaryContests(holder: Holder, events: seq<Event>, event: Event, freshness: Freshness)
    requires OldestFirst(events + [event]) && !Establishes(event.action)
    ensures Rivals(holder, events, freshness) <= Rivals(holder, events + [event], freshness)
    ensures Rivals(holder, events + [event], freshness) <=
      Rivals(holder, events, freshness) + (Establishers(events) * {HolderOf(event)})
  {
    assert (events + [event])[..|events|] == events;
    NewestLast(events, event);
    ActivityIsLast(events, HolderOf(event));
    assert Establishers(events + [event]) == Establishers(events);
  }

  function StillLive(contested: seq<Holder>, activity: map<Holder, int>, freshness: Freshness): seq<Holder> {
    if contested == [] then []
    else
      var last := contested[|contested| - 1];
      StillLive(contested[..|contested| - 1], activity, freshness) +
      if last in activity && freshness.Covers(activity[last]) then [last] else []
  }

  /** As a clock advances a hold can only end, and never while its worktree is
      locked; while it lasts its tenure stands, and the contest only loses
      members, the rest keeping their order. */
  lemma TimeOnlyEnds(
    st: Standing, members: seq<Issue>, events: seq<Event>, freshness: Freshness, later: Freshness,
    local: LocalCheckouts)
    requires later.now >= freshness.now && later.window == freshness.window
    requires Answers(st, members, events, freshness, local)
    ensures var then', now' := TenureOf(members, events, freshness, local), TenureOf(members, events, later, local);
      && (now'.Some? ==> now' == then')
      && (then'.Some? && local.PresenceOf(then'.value.holder.checkout) == Locked ==> now' == then')
    ensures TenureOf(members, events, later, local).Some? ==>
      Answers(st.(contested := StillLive(st.contested, Activity(Admissible(events, local)), later)), members, events,
        later, local)
  {
    if TenureOf(members, events, later, local).Some? {
      var kept := Admissible(events, local);
      var activity := Activity(kept);
      var before, after := Rivals(st.tenure.holder, kept, freshness), Rivals(st.tenure.holder, kept, later);
      assert after == set h | h in before && h in activity && later.Covers(activity[h]);
      StillLiveIsTheRest(st.contested, activity, later);
      forall h ensures multiset(StillLive(st.contested, activity, later))[h] == multiset(after)[h] {
        StillLiveCounts(st.contested, activity, later, h);
      }
      assert multiset(StillLive(st.contested, activity, later)) == multiset(after);
    }
  }

  lemma {:induction false} StillLiveCounts(
    contested: seq<Holder>, activity: map<Holder, int>, freshness: Freshness, h: Holder)
    ensures multiset(StillLive(contested, activity, freshness))[h] ==
      if h in activity && freshness.Covers(activity[h]) then multiset(contested)[h] else 0
  {
    if contested != [] {
      assert contested == contested[..|contested| - 1] + [contested[|contested| - 1]];
      StillLiveCounts(contested[..|contested| - 1], activity, freshness, h);
    }
  }

  lemma {:induction false} StillLiveIsTheRest(contested: seq<Holder>, activity: map<Holder, int>, freshness: Freshness)
    requires SortedBy(contested, ContestOrder(activity))
    ensures SortedBy(StillLive(contested, activity, freshness), ContestOrder(activity))
    ensures forall h :: h in StillLive(contested, activity, freshness) ==> h in contested
  {
    if contested != [] {
      var init, last := contested[..|contested| - 1], contested[|contested| - 1];
      assert contested == init + [last];
      StillLiveIsTheRest(init, activity, freshness);
      forall h | h in init ensures ContestOrder(activity)(h, last) <= 0 {
        var i :| 0 <= i < |init| && init[i] == h;
        assert ContestOrder(activity)(contested[i], contested[|init|]) <= 0;
      }
    }
  }
}
