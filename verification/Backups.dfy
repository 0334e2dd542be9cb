// internal/backup/backup.go: the set of content-named snapshots in one directory,
// ordered by nothing but their mtimes, under a clock nobody trusts.
module Backups {
  import opened Sorting
  import opened AtomicFile
  import opened Search
  import Text

  datatype Entry = Entry(isDir: bool, mtime: int, payload: string)

  /** A directory: what stands under each name. */
  type Dir = map<string, Entry>

  datatype Snapshot = Snapshot(name: string, created: int)

  /** A store export: the digest of its content, and the bytes written for it,
      which may differ between two exports of one content. */
  datatype Export = Export(digest: string, payload: string)
  {
    function Name(): string { digest + SNAPSHOT_EXT }
  }

  // ---- The listing ----

  lemma NameIsSnapshot(content: Export)
    ensures IsSnapshotName(content.Name())
  {
    assert content.Name()[|content.digest|..|content.digest| + 5] == SNAPSHOT_EXT;
  }

  predicate Listed(dir: Dir, name: string) { name in dir && !dir[name].isDir && IsSnapshotName(name) }

  function SnapshotsOf(dir: Dir): set<Snapshot> {
    set name | name in dir && Listed(dir, name) :: Snapshot(name, dir[name].mtime)
  }

  lemma SnapshotIn(dir: Dir, s: Snapshot)
    ensures s in SnapshotsOf(dir) <==> Listed(dir, s.name) && s.created == dir[s.name].mtime
  {
  }

  /** Newest mtime first, ties by name descending. */
  function CompareNewest(a: Snapshot, b: Snapshot): int {
    if a.created != b.created then b.created - a.created else Text.Compare(b.name, a.name)
  }

  lemma NewestOrders()
    ensures TotalPreorder(CompareNewest)
  {
    forall a, b ensures CompareNewest(a, b) <= 0 || CompareNewest(b, a) <= 0 {
      Text.CompareFlips(a.name, b.name);
    }
    forall a, b, c | CompareNewest(a, b) <= 0 && CompareNewest(b, c) <= 0 ensures CompareNewest(a, c) <= 0 {
      if a.created == b.created == c.created {
        Text.CompareTransitive(c.name, b.name, a.name);
      }
    }
  }

  /** Every snapshot of the directory once, newest first. */
  ghost predicate IsListing(dir: Dir, snapshots: seq<Snapshot>) {
    multiset(snapshots) == multiset(SnapshotsOf(dir)) && SortedBy(snapshots, CompareNewest)
  }

  /** What a listing holds, each once: the regular files whose names end as a snapshot's
      does, with their mtimes. */
  lemma ListsTheSnapshots(dir: Dir, snapshots: seq<Snapshot>, s: Snapshot)
    requires IsListing(dir, snapshots)
    ensures multiset(snapshots)[s] ==
      if s.name in dir && !dir[s.name].isDir && HasSuffix(s.name, ".json") && dir[s.name].mtime == s.created
        then 1
      else 0
  {
    assert s in SnapshotsOf(dir) <==> Listed(dir, s.name) && s.created == dir[s.name].mtime;
  }

  lemma ListingExists(dir: Dir) returns (listing: seq<Snapshot>)
    ensures IsListing(dir, listing)
  {
    NewestOrders();
    listing := SortExists(SnapshotsOf(dir), CompareNewest);
  }

  /** A directory has one listing: the order is total, so every reader agrees. */
  lemma ListingIsUnique(dir: Dir, a: seq<Snapshot>, b: seq<Snapshot>)
    requires IsListing(dir, a) && IsListing(dir, b)
    ensures a == b
  {
    forall x, y | x in a && y in a && CompareNewest(x, y) <= 0 && CompareNewest(y, x) <= 0 ensures x == y {
      Text.CompareFlips(x.name, y.name);
    }
    SortIsUnique(a, b, CompareNewest);
  }

  function Names(snapshots: seq<Snapshot>): seq<string> {
    seq(|snapshots|, i requires 0 <= i < |snapshots| => snapshots[i].name)
  }

  function FirstOf<T>(s: seq<T>, keep: nat): seq<T> { if keep < |s| then s[..keep] else s }

  function Without(names: seq<string>, name: string): seq<string> {
    if names == [] then []
    else (if names[0] == name then [] else [names[0]]) + Without(names[1..], name)
  }

  // ---- The stamp ----

  const ORDER_STEP := 2000000000

  function NextStamp(newestOther: int, written: int): int {
    if newestOther + ORDER_STEP > written then newestOther + ORDER_STEP else written
  }

  /** The latest mtime among the snapshots but the named one; the zero time for none. */
  function NewestOther(snapshots: seq<Snapshot>, name: string): int {
    if snapshots == [] then 0
    else
      var before, last := NewestOther(snapshots[..|snapshots| - 1], name), snapshots[|snapshots| - 1];
      if last.name != name && last.created > before then last.created else before
  }

  method NewestOtherMTime(snapshots: seq<Snapshot>, name: string) returns (newest: int)
    ensures newest == NewestOther(snapshots, name)
  {
    newest := 0;
    for i := 0 to |snapshots|
      invariant newest == NewestOther(snapshots[..i], name)
    {
      assert snapshots[..i + 1][..i] == snapshots[..i];
      if snapshots[i].name != name && snapshots[i].created > newest {
        newest := snapshots[i].created;
      }
    }
    assert snapshots[..|snapshots|] == snapshots;
  }

  lemma {:induction false} NewestOtherBounds(snapshots: seq<Snapshot>, name: string)
    ensures NewestOther(snapshots, name) >= 0
    ensures forall s :: s in snapshots && s.name != name ==> s.created <= NewestOther(snapshots, name)
    ensures NewestOther(snapshots, name) > 0 ==> exists s ::
      s in snapshots && s.name != name && s.created == NewestOther(snapshots, name)
  {
    if snapshots != [] {
      assert snapshots == snapshots[..|snapshots| - 1] + [snapshots[|snapshots| - 1]];
      NewestOtherBounds(snapshots[..|snapshots| - 1], name);
    }
  }

  /** How a filesystem may round an mtime down: by less than the order step. */
  ghost predicate Granular(round: int -> int) {
    forall t :: round(t) <= t < round(t) + ORDER_STEP
  }

  /** However the clock and the rounding fall, a stamp is strictly after every
      other snapshot, and past the clock by no more than the step over them. */
  lemma StampIsNewest(snapshots: seq<Snapshot>, name: string, written: int, round: int -> int)
    requires Granular(round)
    ensures var stamp := round(NextStamp(NewestOther(snapshots, name), written));
      && (forall s :: s in snapshots && s.name != name ==> s.created < stamp)
      && (stamp <= written || stamp <= NewestOther(snapshots, name) + ORDER_STEP)
  {
    NewestOtherBounds(snapshots, name);
  }

  /** The written mtime is two seconds or more past the zero time and every snapshot of
      another name. */
  ghost predicate ClockIsAhead(snapshots: seq<Snapshot>, name: string, written: int) {
    2000000000 <= written && forall s :: s in snapshots && s.name != name ==> s.created + 2000000000 <= written
  }

  /** A take keeps its written mtime where that is far enough ahead to tell it from the
      others, and otherwise comes two seconds past the newest of them. */
  lemma StampKeepsTheClock(snapshots: seq<Snapshot>, name: string, written: int)
    ensures var stamp := NextStamp(NewestOther(snapshots, name), written);
      && (ClockIsAhead(snapshots, name, written) ==> stamp == written)
      && (!ClockIsAhead(snapshots, name, written) ==>
        stamp > written && (forall s :: s in snapshots && s.name != name ==> s.created + 2000000000 <= stamp) &&
        (stamp == 2000000000 ||
         exists s :: s in snapshots && s.name != name && stamp == s.created + 2000000000))
  {
    NewestOtherBounds(snapshots, name);
  }

  // ---- What a write does to a listing ----

  function DropName(snapshots: seq<Snapshot>, name: string): seq<Snapshot> {
    if snapshots == [] then []
    else (if snapshots[0].name == name then [] else [snapshots[0]]) + DropName(snapshots[1..], name)
  }

  lemma {:induction false} DropNameNames(snapshots: seq<Snapshot>, name: string)
    ensures Names(DropName(snapshots, name)) == Without(Names(snapshots), name)
  {
    if snapshots != [] {
      DropNameNames(snapshots[1..], name);
      assert Names(snapshots)[1..] == Names(snapshots[1..]);
      assert Names(DropName(snapshots, name)) ==
        (if snapshots[0].name == name then [] else [snapshots[0].name]) + Names(DropName(snapshots[1..], name));
    }
  }

  lemma {:induction false} DropNameCounts(snapshots: seq<Snapshot>, name: string, s: Snapshot)
    ensures multiset(DropName(snapshots, name))[s] == if s.name == name then 0 else multiset(snapshots)[s]
    ensures s in DropName(snapshots, name) <==> s in snapshots && s.name != name
  {
    if snapshots != [] {
      assert snapshots == [snapshots[0]] + snapshots[1..];
      DropNameCounts(snapshots[1..], name, s);
    }
  }

  lemma {:induction false} DropNameSorted(snapshots: seq<Snapshot>, name: string)
    requires SortedBy(snapshots, CompareNewest)
    ensures SortedBy(DropName(snapshots, name), CompareNewest)
  {
    if snapshots != [] {
      RestSorted(snapshots, CompareNewest);
      DropNameSorted(snapshots[1..], name);
      forall s | s in DropName(snapshots[1..], name) ensures CompareNewest(snapshots[0], s) <= 0 {
        DropNameCounts(snapshots[1..], name, s);
        HeadIsFirst(snapshots, s);
      }
      if snapshots[0].name != name {
        FirstSorted(snapshots[0], DropName(snapshots[1..], name));
      }
    }
  }

  lemma HeadIsFirst(snapshots: seq<Snapshot>, s: Snapshot)
    requires SortedBy(snapshots, CompareNewest) && snapshots != [] && s in snapshots[1..]
    ensures CompareNewest(snapshots[0], s) <= 0
  {
    var i :| 0 <= i < |snapshots[1..]| && snapshots[1..][i] == s;
    assert snapshots[i + 1] == s;
  }

  lemma InListing(dir: Dir, listing: seq<Snapshot>, s: Snapshot)
    requires IsListing(dir, listing)
    ensures multiset(listing)[s] == if Listed(dir, s.name) && s.created == dir[s.name].mtime then 1 else 0
    ensures s in listing <==> Listed(dir, s.name) && s.created == dir[s.name].mtime
  {
    SnapshotIn(dir, s);
    assert multiset(listing)[s] == multiset(SnapshotsOf(dir))[s];
    assert s in listing <==> multiset(listing)[s] > 0;
  }

  /** A listing, checked snapshot by snapshot. */
  lemma ListingFrom(dir: Dir, listing: seq<Snapshot>)
    requires SortedBy(listing, CompareNewest)
    requires forall s: Snapshot ::
      multiset(listing)[s] == if Listed(dir, s.name) && s.created == dir[s.name].mtime then 1 else 0
    ensures IsListing(dir, listing)
  {
    forall s: Snapshot ensures multiset(listing)[s] == multiset(SnapshotsOf(dir))[s] {
      SnapshotIn(dir, s);
    }
  }

  lemma FirstSorted(first: Snapshot, rest: seq<Snapshot>)
    requires SortedBy(rest, CompareNewest) && forall s :: s in rest ==> CompareNewest(first, s) <= 0
    ensures SortedBy([first] + rest, CompareNewest)
  {
  }

  lemma WrittenCount(dir: Dir, listing: seq<Snapshot>, name: string, entry: Entry, s: Snapshot)
    requires IsListing(dir, listing) && IsSnapshotName(name) && !entry.isDir
    ensures var after := dir[name := entry];
      multiset([Snapshot(name, entry.mtime)] + DropName(listing, name))[s] ==
        if Listed(after, s.name) && s.created == after[s.name].mtime then 1 else 0
  {
    DropNameCounts(listing, name, s);
    InListing(dir, listing, s);
    assert multiset([Snapshot(name, entry.mtime)] + DropName(listing, name)) ==
      multiset{Snapshot(name, entry.mtime)} + multiset(DropName(listing, name));
  }

  /** Putting a strictly newest snapshot under its name moves the name to the
      front and leaves the rest as they were. */
  lemma WrittenFirst(dir: Dir, listing: seq<Snapshot>, name: string, entry: Entry)
    requires IsListing(dir, listing) && IsSnapshotName(name) && !entry.isDir
    requires forall s :: s in listing && s.name != name ==> s.created < entry.mtime
    ensures IsListing(dir[name := entry], [Snapshot(name, entry.mtime)] + DropName(listing, name))
  {
    var rest, first := DropName(listing, name), Snapshot(name, entry.mtime);
    DropNameSorted(listing, name);
    forall s | s in rest ensures CompareNewest(first, s) <= 0 {
      DropNameCounts(listing, name, s);
    }
    FirstSorted(first, rest);
    ghost var after := dir[name := entry];
    forall s: Snapshot
      ensures multiset([first] + rest)[s] ==
        if Listed(after, s.name) && s.created == after[s.name].mtime then 1 else 0 {
      WrittenCount(dir, listing, name, entry, s);
    }
    ListingFrom(after, [first] + rest);
  }

  lemma SkipSorted(listing: seq<Snapshot>, i: nat)
    requires SortedBy(listing, CompareNewest) && i < |listing|
    ensures SortedBy(listing[..i] + listing[i + 1..], CompareNewest)
    ensures multiset(listing[..i] + listing[i + 1..]) == multiset(listing) - multiset{listing[i]}
  {
    var rest := listing[..i] + listing[i + 1..];
    forall a, b | 0 <= a < b < |rest| ensures CompareNewest(rest[a], rest[b]) <= 0 {
      assert rest[a] == if a < i then listing[a] else listing[a + 1];
      assert rest[b] == if b < i then listing[b] else listing[b + 1];
    }
    assert listing == listing[..i] + [listing[i]] + listing[i + 1..];
  }

  /** Removing a listed snapshot takes it out of the listing and nothing else. */
  lemma RemovedOne(dir: Dir, listing: seq<Snapshot>, i: nat)
    requires IsListing(dir, listing) && i < |listing|
    ensures listing[i].name in dir && IsListing(dir - {listing[i].name}, listing[..i] + listing[i + 1..])
  {
    var rest := listing[..i] + listing[i + 1..];
    InListing(dir, listing, listing[i]);
    SkipSorted(listing, i);
    forall s: Snapshot
      ensures multiset(rest)[s] ==
        if Listed(dir - {listing[i].name}, s.name) && s.created == dir[s.name].mtime then 1 else 0
    {
      RemovedCount(dir, listing, listing[i], s);
    }
    ListingFrom(dir - {listing[i].name}, rest);
  }

  lemma RemovedCount(dir: Dir, listing: seq<Snapshot>, gone: Snapshot, s: Snapshot)
    requires IsListing(dir, listing) && gone in listing
    ensures (multiset(listing) - multiset{gone})[s] ==
      if Listed(dir - {gone.name}, s.name) && s.created == dir[s.name].mtime then 1 else 0
  {
    InListing(dir, listing, s);
    InListing(dir, listing, gone);
  }

  /** A file that is no snapshot is invisible to the listing. */
  lemma UnlistedIsInvisible(dir: Dir, name: string, listing: seq<Snapshot>)
    requires !IsSnapshotName(name) && IsListing(dir, listing)
    ensures IsListing(dir - {name}, listing)
  {
    var after := dir - {name};
    forall s: Snapshot
      ensures multiset(listing)[s] == if Listed(after, s.name) && s.created == after[s.name].mtime then 1 else 0 {
      InListing(dir, listing, s);
    }
    ListingFrom(after, listing);
  }

  /** A killed take's temp file, as a directory's owner can tell it. */
  predicate IsResidue(dir: Dir, name: string) {
    name in dir && !dir[name].isDir && TempTarget(name).Some? && IsSnapshotName(TempTarget(name).value)
  }

  /** A temp file is a regular file under a name a write of a snapshot draws: the
      snapshot's own, a mark and digits. */
  lemma ResidueIs(dir: Dir, name: string)
    ensures IsResidue(dir, name) <==>
      name in dir && !dir[name].isDir &&
      exists target, digits :: DrawnFor(name, target, digits) && HasSuffix(target, ".json")
  {
    if IsResidue(dir, name) {
      var target := TempTarget(name).value;
      TempTargetInverts(name, target);
      var digits :| digits != "" && IsDigits(digits) && name == TempName(target, digits);
      DrawnIs(name, target, digits);
    }
    if target, digits :| DrawnFor(name, target, digits) && HasSuffix(target, ".json") {
      DrawnIs(name, target, digits);
      TempTargetInverts(name, target);
    }
  }

  lemma DrawnIs(name: string, target: string, digits: string)
    ensures DrawnFor(name, target, digits) <==>
      digits != "" && IsDigits(digits) && name == TempName(target, digits)
  {
    assert forall i :: 0 <= i < |digits| ==> digits[i] in digits;
  }

  /** The name is the target's, a mark and decimal digits. */
  predicate DrawnFor(name: string, target: string, digits: string) {
    digits != "" && (forall c :: c in digits ==> '0' <= c <= '9') && name == target + ".tmp-" + digits
  }
}
