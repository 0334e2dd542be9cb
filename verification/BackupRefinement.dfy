// The steps of a take, seen as one: a take that runs to its end among any others,
// killed or not, does to the set what Take does alone, and one killed on the way
// has lost nothing of the newest snapshots.
module BackupRefinement {
  import opened AtomicFile
  import opened Backups
  import opened BackupSet
  import opened BackupProtocol

  /** dir is before with some dead takes' temp files gone. */
  ghost predicate ClearedTo(before: Dir, dir: Dir) {
    (forall name :: name in dir ==> name in before && dir[name] == before[name]) &&
    (forall name :: name in before && name !in dir ==> IsResidue(before, name))
  }

  lemma ClearedListing(before: Dir, dir: Dir, listing: seq<Snapshot>)
    requires ClearedTo(before, dir) && IsListing(before, listing)
    ensures IsListing(dir, listing)
  {
    var gone := set name | name in before && name !in dir;
    Cleared(before, listing, gone);
    assert before - gone == dir;
  }

  /** content's file, at mtime, in a directory whose listing is still listing. */
  ghost predicate Put(before: Dir, listing: seq<Snapshot>, dir: Dir, content: Export, mtime: int) {
    exists cleared: Dir :: ClearedTo(before, cleared) && PutIn(cleared, dir, content, mtime)
  }

  ghost predicate PutIn(cleared: Dir, dir: Dir, content: Export, mtime: int) {
    dir == cleared[content.Name() := Entry(false, mtime, content.payload)] &&
    (content.Name() in cleared ==> !cleared[content.Name()].isDir)
  }

  /** The listing once content is put and stamped, before any prune. */
  function Full(listing: seq<Snapshot>, content: Export, mtime: int): seq<Snapshot> {
    [Snapshot(content.Name(), mtime)] + DropName(listing, content.Name())
  }

  /** Some of the snapshots past the newest keep are gone, newest of them first. */
  ghost predicate PartPruned(created: Dir, full: seq<Snapshot>, dir: Dir, keep: nat, removed: nat) {
    PrunedTo(created, full, dir, Kept(full, keep), Kept(full, keep) + removed)
  }

  function StampOf(rules: Rules, listing: seq<Snapshot>, content: Export, written: int): int {
    rules.round(NextStamp(NewestOther(listing, content.Name()), written))
  }

  ghost predicate PutAndPruned(
    before: Dir, listing: seq<Snapshot>, dir: Dir, rules: Rules, content: Export, written: int) {
    var mtime := StampOf(rules, listing, content, written);
    exists created: Dir, removed: nat ::
      Put(before, listing, created, content, mtime) &&
        PartPruned(created, Full(listing, content, mtime), dir, rules.keep, removed)
  }

  /** Where the take that found before, listed as listing, has got to. */
  ghost predicate Working(s: Set, rules: Rules, before: Dir, listing: seq<Snapshot>) {
    IsListing(before, listing) && s.holder.Some? &&
    match s.holder.value.phase
    case Clearing => ClearedTo(before, s.dir)
    case Staging(temp, content, newest) =>
      newest == NewestOther(listing, content.Name()) && TempTarget(temp).Some? && ClearedTo(before, s.dir - {temp}) &&
      (temp in s.dir ==> !s.dir[temp].isDir)
    case Renamed(content, newest) =>
      newest == NewestOther(listing, content.Name()) && exists mtime: int :: Put(before, listing, s.dir, content, mtime)
    case Stamped(content, written) => PutAndPruned(before, listing, s.dir, rules, content, written)
  }

  // ---- Each step ----

  lemma ClearWorks(s: Set, s': Set, rules: Rules, before: Dir, listing: seq<Snapshot>, name: string)
    requires Working(s, rules, before, listing) && ClearOne(s, s', name)
    ensures Working(s', rules, before, listing)
  {
  }

  lemma StageWorks(
    s: Set, s': Set, rules: Rules, before: Dir, listing: seq<Snapshot>, content: Export, digits: string,
    relisted: seq<Snapshot>, mtime: int)
    requires Working(s, rules, before, listing) && Stage(s, s', rules, content, digits, relisted, mtime)
    ensures Working(s', rules, before, listing)
  {
    TempOf(content, digits);
    ClearedListing(before, s.dir, listing);
    ListingIsUnique(s.dir, listing, relisted);
    var temp := TempName(content.Name(), digits);
    assert s'.dir - {temp} == s.dir;
  }

  lemma FillWorks(s: Set, s': Set, rules: Rules, before: Dir, listing: seq<Snapshot>, bytes: nat, mtime: int)
    requires Working(s, rules, before, listing) && Fill(s, s', bytes, mtime)
    ensures Working(s', rules, before, listing)
  {
    assert s'.dir - {s.holder.value.phase.temp} == s.dir - {s.holder.value.phase.temp};
  }

  lemma RenameWorks(s: Set, s': Set, rules: Rules, before: Dir, listing: seq<Snapshot>)
    requires Working(s, rules, before, listing) && Rename(s, s')
    ensures Working(s', rules, before, listing)
  {
    var phase := s.holder.value.phase;
    var cleared := s.dir - {phase.temp};
    NameIsSnapshot(phase.content);
    TempIsNoSnapshot(phase.temp);
    assert s.dir[phase.temp] == Entry(false, s.dir[phase.temp].mtime, phase.content.payload);
    assert PutIn(cleared, s'.dir, phase.content, s.dir[phase.temp].mtime);
    assert Put(before, listing, s'.dir, phase.content, s.dir[phase.temp].mtime);
  }

  lemma PutLists(before: Dir, listing: seq<Snapshot>, created: Dir, rules: Rules, content: Export, written: int)
    requires rules.Valid() && IsListing(before, listing)
    requires Put(before, listing, created, content, StampOf(rules, listing, content, written))
    ensures IsListing(created, Full(listing, content, StampOf(rules, listing, content, written)))
  {
    var mtime := StampOf(rules, listing, content, written);
    var cleared: Dir :| ClearedTo(before, cleared) && PutIn(cleared, created, content, mtime);
    ClearedListing(before, cleared, listing);
    NameIsSnapshot(content);
    StampIsNewest(listing, content.Name(), written, rules.round);
    WrittenFirst(cleared, listing, content.Name(), Entry(false, mtime, content.payload));
  }

  lemma StampWorks(s: Set, s': Set, rules: Rules, before: Dir, listing: seq<Snapshot>)
    requires rules.Valid() && Working(s, rules, before, listing) && StampIt(s, s', rules)
    ensures Working(s', rules, before, listing)
  {
    var content := s.holder.value.phase.content;
    var mtime: int :| Put(before, listing, s.dir, content, mtime);
    var stamp := StampOf(rules, listing, content, mtime);
    Restamped(before, listing, s.dir, content, mtime, stamp);
    PutLists(before, listing, s'.dir, rules, content, mtime);
    NonePruned(s'.dir, Full(listing, content, stamp), rules.keep);
  }

  lemma Restamped(before: Dir, listing: seq<Snapshot>, dir: Dir, content: Export, mtime: int, stamp: int)
    requires Put(before, listing, dir, content, mtime)
    ensures content.Name() in dir && dir[content.Name()].mtime == mtime
    ensures Put(before, listing, dir[content.Name() := dir[content.Name()].(mtime := stamp)], content, stamp)
  {
    var cleared: Dir :| ClearedTo(before, cleared) && PutIn(cleared, dir, content, mtime);
    assert PutIn(cleared, dir[content.Name() := dir[content.Name()].(mtime := stamp)], content, stamp);
  }

  lemma NonePruned(dir: Dir, full: seq<Snapshot>, keep: nat)
    requires IsListing(dir, full)
    ensures PartPruned(dir, full, dir, keep, 0)
  {
    assert Skip(full, Kept(full, keep), Kept(full, keep) + 0) == full;
  }

  lemma PruneWorks(s: Set, s': Set, rules: Rules, before: Dir, listing: seq<Snapshot>, relisted: seq<Snapshot>)
    requires rules.Valid() && Working(s, rules, before, listing) && PruneOne(s, s', rules, relisted)
    ensures Working(s', rules, before, listing)
  {
    var phase := s.holder.value.phase;
    var mtime := StampOf(rules, listing, phase.content, phase.written);
    var full := Full(listing, phase.content, mtime);
    var created: Dir, removed: nat :|
      Put(before, listing, created, phase.content, mtime) && PartPruned(created, full, s.dir, rules.keep, removed);
    PrunesOneMore(created, full, s.dir, rules.keep, removed, relisted);
    assert PartPruned(created, full, s'.dir, rules.keep, removed + 1);
  }

  lemma PrunesOneMore(created: Dir, full: seq<Snapshot>, dir: Dir, keep: nat, removed: nat, listing: seq<Snapshot>)
    requires PartPruned(created, full, dir, keep, removed) && IsListing(dir, listing) && keep < |listing|
    ensures PartPruned(created, full, dir - {listing[keep].name}, keep, removed + 1)
  {
    ListedNext(created, full, dir, keep, removed, listing);
    PrunesNext(created, full, dir, keep, keep + removed);
  }

  /** The first snapshot past keep in what is left is the next the prune is due. */
  lemma ListedNext(created: Dir, full: seq<Snapshot>, dir: Dir, keep: nat, removed: nat, listing: seq<Snapshot>)
    requires PartPruned(created, full, dir, keep, removed) && IsListing(dir, listing) && keep < |listing|
    ensures Kept(full, keep) == keep && keep + removed < |full| && full[keep + removed] == listing[keep]
  {
    ListingIsUnique(dir, listing, Skip(full, Kept(full, keep), Kept(full, keep) + removed));
    FirstPastKeep(full, keep, removed);
  }

  lemma FirstPastKeep(full: seq<Snapshot>, keep: nat, removed: nat)
    requires Kept(full, keep) + removed <= |full|
    ensures var left := Skip(full, Kept(full, keep), Kept(full, keep) + removed);
      keep < |left| ==> Kept(full, keep) == keep && keep + removed < |full| && full[keep + removed] == left[keep]
  {
  }

  lemma NextWorks(s: Set, s': Set, rules: Rules, move: Move, before: Dir, listing: seq<Snapshot>)
    requires rules.Valid() && Working(s, rules, before, listing) && Next(s, s', rules, move) && s'.holder.Some?
    ensures Working(s', rules, before, listing)
  {
    match move
    case ClearingOne(name) => ClearWorks(s, s', rules, before, listing, name);
    case StagingOne(content, digits, relisted, mtime) =>
      StageWorks(s, s', rules, before, listing, content, digits, relisted, mtime);
    case Filling(bytes, mtime) => FillWorks(s, s', rules, before, listing, bytes, mtime);
    case Renaming => RenameWorks(s, s', rules, before, listing);
    case Stamping => StampWorks(s, s', rules, before, listing);
    case PruningOne(relisted) => PruneWorks(s, s', rules, before, listing, relisted);
    case _ => {}
  }

  // ---- A whole take ----

  /** One take holds the lock from the step it acquires it at, a, to b. */
  ghost predicate HeldThroughout(states: seq<Set>, moves: seq<Move>, a: nat, b: nat) {
    a < b < |states| && |states| == |moves| + 1 && moves[a].Acquiring? &&
      forall i :: a < i <= b ==> states[i].holder.Some?
  }

  lemma {:induction false} WorksThroughout(
    states: seq<Set>, moves: seq<Move>, rules: Rules, a: nat, b: nat, listing: seq<Snapshot>)
    requires rules.Valid() && Behaviour(states, moves, rules) && HeldThroughout(states, moves, a, b)
    requires IsListing(states[a].dir, listing)
    ensures Working(states[b], rules, states[a].dir, listing)
  {
    assert Next(states[b - 1], states[b], rules, moves[b - 1]);
    if b > a + 1 {
      WorksThroughout(states, moves, rules, a, b - 1, listing);
      NextWorks(states[b - 1], states[b], rules, moves[b - 1], states[a].dir, listing);
    }
  }

  lemma WholePrune(full: seq<Snapshot>, keep: nat, removed: nat)
    requires Kept(full, keep) + removed <= |full|
    requires |Skip(full, Kept(full, keep), Kept(full, keep) + removed)| <= keep
    ensures Skip(full, Kept(full, keep), Kept(full, keep) + removed) == Skip(full, Kept(full, keep), |full|)
  {
  }

  /** The take that acquired the lock at a and has pruned down to keep by b did,
      to the set, exactly what a successful Take does in one call, whatever was
      killed before it and whoever reads meanwhile. */
  lemma StepsAreATake(
    states: seq<Set>, moves: seq<Move>, rules: Rules, a: nat, b: nat, listing: seq<Snapshot>, listing': seq<Snapshot>)
    requires rules.Valid() && Behaviour(states, moves, rules) && HeldThroughout(states, moves, a, b)
    requires states[b].holder.value.phase.Stamped?
    requires IsListing(states[a].dir, listing) && IsListing(states[b].dir, listing') && |listing'| <= rules.keep
    ensures var phase := states[b].holder.value.phase;
      Took(states[a].dir, listing, states[b].dir, listing', rules.keep, phase.content, phase.written)
  {
    WorksThroughout(states, moves, rules, a, b, listing);
    var phase := states[b].holder.value.phase;
    var mtime := StampOf(rules, listing, phase.content, phase.written);
    var full := Full(listing, phase.content, mtime);
    var created: Dir, removed: nat :| Put(states[a].dir, listing, created, phase.content, mtime) &&
      PartPruned(created, full, states[b].dir, rules.keep, removed);
    ListingIsUnique(states[b].dir, listing', Skip(full, Kept(full, rules.keep), Kept(full, rules.keep) + removed));
    WholePrune(full, rules.keep, removed);
    PutThenPruned(states[a].dir, listing, created, states[b].dir, listing', rules, phase.content, phase.written);
  }

  lemma PutThenPruned(
    before: Dir, listing: seq<Snapshot>, created: Dir, after: Dir, left: seq<Snapshot>, rules: Rules, content: Export,
    written: int)
    requires rules.Valid() && IsListing(before, listing) && IsListing(after, left) && Pruned(created, after)
    requires Put(before, listing, created, content, StampOf(rules, listing, content, written))
    requires var full := Full(listing, content, StampOf(rules, listing, content, written));
      left == Skip(full, Kept(full, rules.keep), |full|)
    ensures Took(before, listing, after, left, rules.keep, content, written)
  {
    var mtime := StampOf(rules, listing, content, written);
    var full := Full(listing, content, mtime);
    var cleared: Dir :| ClearedTo(before, cleared) && PutIn(cleared, created, content, mtime);
    PutLists(before, listing, created, rules, content, written);
    ClearedListing(before, cleared, listing);
    CreatedListing(cleared, listing, created, full, content, written, rules.round);
    TookIt(cleared, listing, created, full, after, left, rules.keep, content, written);
    ContentFromBefore(before, cleared, after, content);
  }

  // ---- A take that does not finish ----

  lemma {:induction false} StillInFirst(listing: seq<Snapshot>, name: string, keep: nat, i: nat) returns (j: nat)
    requires i < |listing| && i < keep && listing[i].name != name
    ensures j < |DropName(listing, name)| && j <= i && DropName(listing, name)[j] == listing[i]
  {
    if i == 0 {
      j := 0;
    } else if listing[0].name == name {
      j := StillInFirst(listing[1..], name, keep - 1, i - 1);
    } else {
      j := StillInFirst(listing[1..], name, keep - 1, i - 1);
      j := j + 1;
    }
  }

  lemma ListedIfIn(dir: Dir, listing: seq<Snapshot>, i: nat)
    requires IsListing(dir, listing) && i < |listing|
    ensures Listed(dir, listing[i].name)
  {
    InListing(dir, listing, listing[i]);
  }

  lemma PutKeepsListed(before: Dir, listing: seq<Snapshot>, dir: Dir, content: Export, mtime: int, i: nat)
    requires Put(before, listing, dir, content, mtime) && IsListing(before, listing) && i < |listing|
    ensures Listed(dir, listing[i].name)
  {
    var cleared: Dir :| ClearedTo(before, cleared) && PutIn(cleared, dir, content, mtime);
    ClearedListing(before, cleared, listing);
    ListedIfIn(cleared, listing, i);
  }

  lemma PrunedKeepsListed(
    created: Dir, listing: seq<Snapshot>, dir: Dir, keep: nat, removed: nat, content: Export, mtime: int, i: nat)
    requires PartPruned(created, Full(listing, content, mtime), dir, keep, removed) && i < |listing| && i + 1 < keep
    ensures Listed(dir, listing[i].name)
  {
    var full := Full(listing, content, mtime);
    var j := InFull(listing, content, mtime, i);
    StillFirst(created, full, dir, keep, removed, j);
  }

  lemma StillFirst(created: Dir, full: seq<Snapshot>, dir: Dir, keep: nat, removed: nat, j: nat)
    requires PartPruned(created, full, dir, keep, removed) && j < keep && j < |full|
    ensures Listed(dir, full[j].name)
  {
    SkipKeepsFirst(full, keep, removed, j);
    ListedIfIn(dir, Skip(full, Kept(full, keep), Kept(full, keep) + removed), j);
  }

  lemma InFull(listing: seq<Snapshot>, content: Export, mtime: int, i: nat) returns (j: nat)
    requires i < |listing|
    ensures j < |Full(listing, content, mtime)| && j <= i + 1 &&
      Full(listing, content, mtime)[j].name == listing[i].name
  {
    j := 0;
    if listing[i].name != content.Name() {
      j := StillInFirst(listing, content.Name(), i + 1, i);
      j := j + 1;
    }
  }

  lemma SkipKeepsFirst(full: seq<Snapshot>, keep: nat, removed: nat, j: nat)
    requires Kept(full, keep) + removed <= |full| && j < keep && j < |full|
    ensures var left := Skip(full, Kept(full, keep), Kept(full, keep) + removed); j < |left| && left[j] == full[j]
  {
  }

  lemma DroppedListing(dir: Dir, listing: seq<Snapshot>, name: string)
    requires IsListing(dir, listing)
    ensures IsListing(dir - {name}, DropName(listing, name))
  {
    DropNameSorted(listing, name);
    forall s: Snapshot
      ensures multiset(DropName(listing, name))[s] ==
        if Listed(dir - {name}, s.name) && s.created == dir[s.name].mtime then 1 else 0
    {
      DroppedCount(dir, listing, name, s);
    }
    ListingFrom(dir - {name}, DropName(listing, name));
  }

  lemma DroppedCount(dir: Dir, listing: seq<Snapshot>, name: string, s: Snapshot)
    requires IsListing(dir, listing)
    ensures multiset(DropName(listing, name))[s] ==
      if Listed(dir - {name}, s.name) && s.created == dir[s.name].mtime then 1 else 0
  {
    DropNameCounts(listing, name, s);
    InListing(dir, listing, s);
  }

  /** Two directories that differ in one file list the others in one order. */
  lemma OthersInOrder(dir: Dir, listing: seq<Snapshot>, dir': Dir, listing': seq<Snapshot>, name: string)
    requires IsListing(dir, listing) && IsListing(dir', listing') && dir - {name} == dir' - {name}
    ensures DropName(listing, name) == DropName(listing', name)
  {
    DroppedListing(dir, listing, name);
    DroppedListing(dir', listing', name);
    ListingIsUnique(dir - {name}, DropName(listing, name), DropName(listing', name));
  }

  lemma PutElsewhere(cleared: Dir, dir: Dir, content: Export, mtime: int)
    requires PutIn(cleared, dir, content, mtime)
    ensures cleared - {content.Name()} == dir - {content.Name()}
  {
  }

  lemma PutMovesOnlyItsOwn(
    before: Dir, listing: seq<Snapshot>, dir: Dir, listing': seq<Snapshot>, content: Export, mtime: int)
    requires IsListing(before, listing) && Put(before, listing, dir, content, mtime) && IsListing(dir, listing')
    ensures DropName(listing', content.Name()) == DropName(listing, content.Name())
  {
    var cleared: Dir :| ClearedTo(before, cleared) && PutIn(cleared, dir, content, mtime);
    ClearedListing(before, cleared, listing);
    PutElsewhere(cleared, dir, content, mtime);
    OthersInOrder(cleared, listing, dir, listing', content.Name());
  }

  /** A take cut short between its rename and its stamp leaves its own snapshot where
      the clock put it, and moves no other. */
  lemma UnstampedMovesOnlyItsOwn(
    states: seq<Set>, moves: seq<Move>, rules: Rules, a: nat, b: nat, listing: seq<Snapshot>, listing': seq<Snapshot>)
    requires rules.Valid() && Behaviour(states, moves, rules) && HeldThroughout(states, moves, a, b)
    requires states[b].holder.value.phase.Renamed?
    requires IsListing(states[a].dir, listing) && IsListing(states[b].dir, listing')
    ensures var name := states[b].holder.value.phase.content.Name();
      DropName(listing', name) == DropName(listing, name)
  {
    WorksThroughout(states, moves, rules, a, b, listing);
    var content := states[b].holder.value.phase.content;
    var mtime: int :| Put(states[a].dir, listing, states[b].dir, content, mtime);
    PutMovesOnlyItsOwn(states[a].dir, listing, states[b].dir, listing', content, mtime);
  }

  /** At whatever step a take is cut short, every one of the newest keep - 1
      snapshots it found is still listed: a kill can cost the set nothing that a
      take which finished would have kept. */
  lemma CutShortLosesNothing(
    states: seq<Set>, moves: seq<Move>, rules: Rules, a: nat, b: nat, listing: seq<Snapshot>, i: nat)
    requires rules.Valid() && Behaviour(states, moves, rules) && HeldThroughout(states, moves, a, b)
    requires IsListing(states[a].dir, listing) && i < |listing| && i + 1 < rules.keep
    ensures Listed(states[b].dir, listing[i].name)
  {
    WorksThroughout(states, moves, rules, a, b, listing);
    var s, before := states[b], states[a].dir;
    match s.holder.value.phase
    case Clearing =>
      ClearedListing(before, s.dir, listing);
      ListedIfIn(s.dir, listing, i);
    case Staging(temp, content, newest) =>
      ClearedListing(before, s.dir - {temp}, listing);
      ListedIfIn(s.dir - {temp}, listing, i);
    case Renamed(content, newest) =>
      var mtime: int :| Put(before, listing, s.dir, content, mtime);
      PutKeepsListed(before, listing, s.dir, content, mtime, i);
    case Stamped(content, written) =>
      var mtime := StampOf(rules, listing, content, written);
      var created: Dir, removed: nat :|
        Put(before, listing, created, content, mtime) &&
          PartPruned(created, Full(listing, content, mtime), s.dir, rules.keep, removed);
      PrunedKeepsListed(created, listing, s.dir, rules.keep, removed, content, mtime, i);
  }
}
