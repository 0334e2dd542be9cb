// Runs of takes: the set is the last distinct contents, by latest take.
module BackupRuns {
  import opened Backups
  import opened BackupSet

  datatype TakeOf = TakeOf(content: Export, clock: int)

  /** Successful takes, one after the other, from directory to directory. */
  ghost predicate Ran(dirs: seq<Dir>, listings: seq<seq<Snapshot>>, takes: seq<TakeOf>, keep: nat, round: int -> int) {
    && |dirs| == |takes| + 1 && |listings| == |takes| + 1
    && (forall i :: 0 <= i < |takes| ==>
          Took(dirs[i], listings[i], dirs[i + 1], listings[i + 1], keep, takes[i].content, round(takes[i].clock)))
  }

  function NamesTaken(takes: seq<TakeOf>): seq<string> {
    seq(|takes|, i requires 0 <= i < |takes| => takes[i].content.Name())
  }

  /** The names taken, most recently taken first, each once, ahead of the others that
      stood there earlier. */
  function Recent(earlier: seq<string>, taken: seq<string>): seq<string> {
    if taken == [] then earlier
    else
      var name := taken[|taken| - 1];
      [name] + Without(Recent(earlier, taken[..|taken| - 1]), name)
  }

  ghost predicate DistinctNames(names: seq<string>) {
    forall i, j :: 0 <= i < j < |names| ==> names[i] != names[j]
  }

  lemma {:induction false} WithoutIs(names: seq<string>, name: string)
    ensures forall n :: n in Without(names, name) <==> n in names && n != name
    ensures name !in names ==> Without(names, name) == names
  {
    if names != [] {
      assert names == [names[0]] + names[1..];
      WithoutIs(names[1..], name);
    }
  }

  lemma DistinctRest(names: seq<string>)
    requires DistinctNames(names) && names != []
    ensures DistinctNames(names[1..]) && names[0] !in names[1..]
  {
    var rest := names[1..];
    assert forall i :: 0 <= i < |rest| ==> rest[i] == names[i + 1];
  }

  lemma DistinctMore(first: string, rest: seq<string>)
    requires DistinctNames(rest) && first !in rest
    ensures DistinctNames([first] + rest)
  {
  }

  lemma {:induction false} WithoutDistinct(names: seq<string>, name: string)
    requires DistinctNames(names)
    ensures DistinctNames(Without(names, name))
  {
    if names != [] {
      DistinctRest(names);
      WithoutDistinct(names[1..], name);
      WithoutIs(names[1..], name);
      if names[0] != name {
        DistinctMore(names[0], Without(names[1..], name));
      }
    }
  }

  lemma {:induction false} RecentIsDistinct(earlier: seq<string>, taken: seq<string>)
    requires DistinctNames(earlier)
    ensures DistinctNames(Recent(earlier, taken))
  {
    if taken != [] {
      var init, name := taken[..|taken| - 1], taken[|taken| - 1];
      RecentIsDistinct(earlier, init);
      WithoutDistinct(Recent(earlier, init), name);
      WithoutIs(Recent(earlier, init), name);
      DistinctMore(name, Without(Recent(earlier, init), name));
    }
  }

  /** A directory's listing names each snapshot once. */
  /** Of two snapshots in a listing the first is newer, or as new and greater in name. */
  lemma ListsNewestFirst(dir: Dir, snapshots: seq<Snapshot>, i: nat, j: nat)
    requires IsListing(dir, snapshots) && i < j < |snapshots|
    ensures snapshots[i].created > snapshots[j].created ||
      (snapshots[i].created == snapshots[j].created && Text.Precedes(snapshots[j].name, snapshots[i].name))
  {
    ListingIsDistinct(dir, snapshots);
    assert Names(snapshots)[i] == snapshots[i].name && Names(snapshots)[j] == snapshots[j].name;
    Text.CompareIs(snapshots[j].name, snapshots[i].name);
    assert CompareNewest(snapshots[i], snapshots[j]) <= 0;
  }

  lemma ListingIsDistinct(dir: Dir, listing: seq<Snapshot>)
    requires IsListing(dir, listing)
    ensures DistinctNames(Names(listing))
  {
    forall i, j | 0 <= i < j < |listing| ensures listing[i].name != listing[j].name {
      InListing(dir, listing, listing[i]);
      InListing(dir, listing, listing[j]);
      ListedOnce(listing, i, j);
    }
  }

  lemma ListedOnce(listing: seq<Snapshot>, i: nat, j: nat)
    requires i < j < |listing| && multiset(listing)[listing[i]] <= 1
    ensures listing[i] != listing[j]
  {
    assert listing == listing[..i] + [listing[i]] + listing[i + 1..];
    assert multiset(listing) == multiset(listing[..i]) + multiset{listing[i]} + multiset(listing[i + 1..]);
    assert listing[i + 1..][j - i - 1] == listing[j];
  }

  /** The last take of a name, or -1. */
  function LastTake(taken: seq<string>, name: string): int {
    if taken == [] then -1
    else if taken[|taken| - 1] == name then |taken| - 1
    else LastTake(taken[..|taken| - 1], name)
  }

  lemma {:induction false} WithoutOrder(names: seq<string>, name: string, i: nat, j: nat) returns (i': nat, j': nat)
    requires i < j < |Without(names, name)|
    ensures i' < j' < |names| && names[i'] == Without(names, name)[i] && names[j'] == Without(names, name)[j] &&
      names[j'] != name && names[i'] != name
  {
    WithoutIs(names, name);
    if names[0] == name {
      i', j' := WithoutOrder(names[1..], name, i, j);
      i', j' := i' + 1, j' + 1;
    } else if i == 0 {
      j' := WithoutAt(names[1..], name, j - 1);
      i', j' := 0, j' + 1;
    } else {
      i', j' := WithoutOrder(names[1..], name, i - 1, j - 1);
      i', j' := i' + 1, j' + 1;
    }
  }

  lemma {:induction false} WithoutAt(names: seq<string>, name: string, j: nat) returns (j': nat)
    requires j < |Without(names, name)|
    ensures j' < |names| && names[j'] == Without(names, name)[j] && names[j'] != name
  {
    if names[0] == name {
      j' := WithoutAt(names[1..], name, j);
      j' := j' + 1;
    } else if j == 0 {
      j' := 0;
    } else {
      j' := WithoutAt(names[1..], name, j - 1);
      j' := j' + 1;
    }
  }

  lemma {:induction false} RecentIsTaken(earlier: seq<string>, taken: seq<string>, name: string)
    ensures name in Recent(earlier, taken) <==> LastTake(taken, name) >= 0 || name in earlier
  {
    if taken != [] {
      var init := taken[..|taken| - 1];
      RecentIsTaken(earlier, init, name);
      WithoutIs(Recent(earlier, init), taken[|taken| - 1]);
    }
  }

  /** The names are ordered by their latest takes, those never taken last. */
  lemma {:induction false} RecentIsByLatestTake(earlier: seq<string>, taken: seq<string>, i: nat, j: nat)
    requires i < j < |Recent(earlier, taken)|
    ensures var a, b := LastTake(taken, Recent(earlier, taken)[i]), LastTake(taken, Recent(earlier, taken)[j]);
      a > b || a == b == -1
  {
    if taken != [] {
      var init, name := taken[..|taken| - 1], taken[|taken| - 1];
      LastTakeBound(init);
      if i == 0 {
        var j' := WithoutAt(Recent(earlier, init), name, j - 1);
      } else {
        var i', j' := WithoutOrder(Recent(earlier, init), name, i - 1, j - 1);
        RecentIsByLatestTake(earlier, init, i', j');
      }
    }
  }

  lemma {:induction false} LastTakeBound(taken: seq<string>)
    ensures forall name :: -1 <= LastTake(taken, name) < |taken|
  {
    if taken != [] {
      LastTakeBound(taken[..|taken| - 1]);
    }
  }

  /** Cutting to the newest keep before a take or after it comes to the same. */
  lemma {:induction false} CutCommutes(names: seq<string>, name: string, keep: nat)
    requires DistinctNames(names) && keep > 0
    ensures FirstOf(Without(FirstOf(names, keep), name), keep - 1) == FirstOf(Without(names, name), keep - 1)
  {
    if names != [] {
      var rest := names[1..];
      DistinctRest(names);
      assert FirstOf(names, keep) == [names[0]] + FirstOf(rest, keep - 1);
      assert FirstOf(names, keep)[1..] == FirstOf(rest, keep - 1);
      if names[0] == name {
        WithoutIs(rest, name);
        WithoutIs(FirstOf(rest, keep - 1), name);
      } else if keep > 1 {
        CutCommutes(rest, name, keep - 1);
        var a, b := Without(FirstOf(rest, keep - 1), name), Without(rest, name);
        assert FirstOf([names[0]] + a, keep - 1) == [names[0]] + FirstOf(a, keep - 2);
        assert FirstOf([names[0]] + b, keep - 1) == [names[0]] + FirstOf(b, keep - 2);
      }
    }
  }

  /** Two lists alike in their first keep stay alike there when a name moves to the
      front of both. */
  lemma TakenAlike(a: seq<string>, b: seq<string>, name: string, keep: nat)
    requires DistinctNames(a) && DistinctNames(b) && keep > 0 && FirstOf(a, keep) == FirstOf(b, keep)
    ensures FirstOf([name] + Without(a, name), keep) == FirstOf([name] + Without(b, name), keep)
  {
    CutCommutes(a, name, keep);
    CutCommutes(b, name, keep);
    HeadAndFirst(name, Without(a, name), keep);
    HeadAndFirst(name, Without(b, name), keep);
  }

  lemma HeadAndFirst(name: string, rest: seq<string>, keep: nat)
    requires keep > 0
    ensures FirstOf([name] + rest, keep) == [name] + FirstOf(rest, keep - 1)
  {
  }

  lemma RecentNext(earlier: seq<string>, taken: seq<string>, name: string)
    ensures Recent(earlier, taken + [name]) == [name] + Without(Recent(earlier, taken), name)
  {
    assert (taken + [name])[..|taken|] == taken;
  }

  /** The listing's newest keep names are the newest keep of recent. */
  predicate Alike(listing: seq<Snapshot>, recent: seq<string>, keep: nat) {
    FirstOf(Names(listing), keep) == FirstOf(recent, keep)
  }

  lemma RanStep(dirs: seq<Dir>, listings: seq<seq<Snapshot>>, takes: seq<TakeOf>, keep: nat, round: int -> int, n: nat)
    requires Ran(dirs, listings, takes, keep, round) && n < |takes|
    ensures Took(dirs[n], listings[n], dirs[n + 1], listings[n + 1], keep, takes[n].content, round(takes[n].clock))
    ensures NamesTaken(takes[..n + 1]) == NamesTaken(takes[..n]) + [takes[n].content.Name()]
  {
  }

  /** After any run of successful takes, whatever the clock did and however the file
      system rounds, the listing is the newest keep of the distinct contents by latest
      take, with what stood there at the start behind them. */
  lemma {:induction false} SetIsTheMostRecentlyTaken(
    dirs: seq<Dir>, listings: seq<seq<Snapshot>>, takes: seq<TakeOf>, keep: nat, round: int -> int, n: nat)
    requires keep > 0 && Ran(dirs, listings, takes, keep, round) && IsListing(dirs[0], listings[0]) && n <= |takes|
    ensures Alike(listings[n], Recent(Names(listings[0]), NamesTaken(takes[..n])), keep)
    ensures n > 0 ==> |listings[n]| <= keep
  {
    if n > 0 {
      var earlier, before := Names(listings[0]), NamesTaken(takes[..n - 1]);
      SetIsTheMostRecentlyTaken(dirs, listings, takes, keep, round, n - 1);
      RanStep(dirs, listings, takes, keep, round, n - 1);
      ListingIsDistinct(dirs[0], listings[0]);
      TookNext(dirs[n - 1], listings[n - 1], dirs[n], listings[n], keep, takes[n - 1].content,
        round(takes[n - 1].clock), earlier, before);
    }
  }

  lemma TookNext(
    dir: Dir, listing: seq<Snapshot>, dir': Dir, listing': seq<Snapshot>, keep: nat, content: Export, written: int,
    earlier: seq<string>, taken: seq<string>)
    requires keep > 0 && Took(dir, listing, dir', listing', keep, content, written)
    requires DistinctNames(earlier) && Alike(listing, Recent(earlier, taken), keep)
    ensures Alike(listing', Recent(earlier, taken + [content.Name()]), keep) && |listing'| <= keep
  {
    RecentIsDistinct(earlier, taken);
    RecentNext(earlier, taken, content.Name());
    TookLists(dir, listing, dir', listing', keep, content, written, Recent(earlier, taken));
  }

  lemma TookLists(
    dir: Dir, listing: seq<Snapshot>, dir': Dir, listing': seq<Snapshot>, keep: nat, content: Export, written: int,
    recent: seq<string>)
    requires keep > 0 && Took(dir, listing, dir', listing', keep, content, written)
    requires DistinctNames(recent) && Alike(listing, recent, keep)
    ensures Alike(listing', [content.Name()] + Without(recent, content.Name()), keep) && |listing'| <= keep
  {
    ListingIsDistinct(dir, listing);
    TakenAlike(Names(listing), recent, content.Name(), keep);
    FirstOfFirst([content.Name()] + Without(Names(listing), content.Name()), keep);
  }

  lemma FirstOfFirst(names: seq<string>, keep: nat)
    ensures FirstOf(FirstOf(names, keep), keep) == FirstOf(names, keep) && |FirstOf(names, keep)| <= keep
  {
  }

  /** From an empty set the n-th stamp runs past the largest clock reading by at
      most n order steps. */
  lemma {:induction false} StampsStayNearTheClock(
    dirs: seq<Dir>, listings: seq<seq<Snapshot>>, takes: seq<TakeOf>, keep: nat, round: int -> int, largest: nat,
    n: nat)
    requires Granular(round) && Ran(dirs, listings, takes, keep, round) && listings[0] == [] && n <= |takes|
    requires forall i :: 0 <= i < |takes| ==> takes[i].clock <= largest
    ensures forall s :: s in listings[n] ==> s.created <= largest + n * ORDER_STEP
  {
    if n > 0 {
      StampsStayNearTheClock(dirs, listings, takes, keep, round, largest, n - 1);
      OneStepMore(n);
      TakeStaysNear(dirs, listings, takes, keep, round, n - 1, largest, (n - 1) * ORDER_STEP);
    }
  }

  lemma OneStepMore(n: nat)
    requires n > 0
    ensures (n - 1) * ORDER_STEP >= 0 && n * ORDER_STEP == (n - 1) * ORDER_STEP + ORDER_STEP
  {
  }

  lemma TakeStaysNear(
    dirs: seq<Dir>, listings: seq<seq<Snapshot>>, takes: seq<TakeOf>, keep: nat, round: int -> int, k: nat,
    largest: nat, past: nat)
    requires Granular(round) && Ran(dirs, listings, takes, keep, round) && k < |takes|
    requires forall i :: 0 <= i < |takes| ==> takes[i].clock <= largest
    requires forall s :: s in listings[k] ==> s.created <= largest + past
    ensures forall s :: s in listings[k + 1] ==> s.created <= largest + past + ORDER_STEP
  {
    assert takes[k].clock <= largest;
    assert Took(dirs[k], listings[k], dirs[k + 1], listings[k + 1], keep, takes[k].content, round(takes[k].clock));
    StampStaysNear(listings[k], listings[k + 1], keep, takes[k].content.Name(), round(takes[k].clock), largest + past);
  }

  lemma StampStaysNear(
    listing: seq<Snapshot>, listing': seq<Snapshot>, keep: nat, name: string, written: int, bound: nat)
    requires TookNames(listing, listing', keep, name, written) && written <= bound
    requires forall s :: s in listing ==> s.created <= bound
    ensures forall s :: s in listing' ==> s.created <= bound + ORDER_STEP
  {
    NewestOtherBounds(listing, name);
  }
}
