// What concurrent takes leave behind over a whole run, kills included: which names
// stand, and in what order.
module BackupHistory {
  import opened Model
  import opened AtomicFile
  import opened Backups
  import opened BackupSet
  import opened BackupRuns
  import opened BackupProtocol
  import opened BackupRefinement

  // ---- One name's file ----

  function HolderContent(s: Set): Option<Export> {
    if s.holder.None? then None
    else
      match s.holder.value.phase
      case Clearing => None
      case Staging(_, content, _) => Some(content)
      case Renamed(content, _) => Some(content)
      case Stamped(content, _) => Some(content)
  }

  /** The step puts a file under the name, or moves its mtime. */
  predicate Writes(s: Set, move: Move, name: string) {
    (move.Killing? && name in move.lost) ||
    ((move.Renaming? || move.Stamping?) && HolderContent(s).Some? && HolderContent(s).value.Name() == name)
  }

  predicate Stamps(s: Set, move: Move, name: string) { move.Stamping? && Writes(s, move, name) }

  /** Any other step leaves the file as it is, or removes it. */
  lemma UnwrittenStays(s: Set, s': Set, rules: Rules, move: Move, name: string)
    requires Inv(s, rules) && Next(s, s', rules, move) && IsSnapshotName(name) && !Writes(s, move, name)
    ensures name in s'.dir ==> name in s.dir && s'.dir[name] == s.dir[name]
  {
    match move
    case StagingOne(content, digits, _, _) => TempOf(content, digits);
    case Filling(_, _) => TempIsNoSnapshot(s.holder.value.phase.temp);
    case Renaming => TempIsNoSnapshot(s.holder.value.phase.temp);
    case _ => {}
  }

  // ---- The order two names stand in ----

  predicate Newer(dir: Dir, a: string, b: string) {
    Listed(dir, a) && Listed(dir, b) ==> dir[b].mtime < dir[a].mtime
  }

  /** The step at i stamps a, and no step since, up to n, writes either name. */
  ghost predicate StampedSince(states: seq<Set>, moves: seq<Move>, i: nat, n: nat, a: string, b: string) {
    i < n < |states| && |states| == |moves| + 1 && a != b && Stamps(states[i], moves[i], a) &&
    forall k :: i < k < n ==> !Writes(states[k], moves[k], a) && !Writes(states[k], moves[k], b)
  }

  lemma StampMakesNewer(s: Set, s': Set, rules: Rules, move: Move, a: string, b: string)
    requires rules.Valid() && Inv(s, rules) && Next(s, s', rules, move) && Stamps(s, move, a) && a != b
    ensures Newer(s'.dir, a, b)
  {
    NextKeeps(s, s', rules, move);
  }

  lemma NewerStays(s: Set, s': Set, rules: Rules, move: Move, a: string, b: string)
    requires Inv(s, rules) && Next(s, s', rules, move) && !Writes(s, move, a) && !Writes(s, move, b)
    requires Newer(s.dir, a, b)
    ensures Newer(s'.dir, a, b)
  {
    if Listed(s'.dir, a) && Listed(s'.dir, b) {
      UnwrittenStays(s, s', rules, move, a);
      UnwrittenStays(s, s', rules, move, b);
    }
  }

  lemma {:induction false} StampedSinceIsNewer(
    states: seq<Set>, moves: seq<Move>, rules: Rules, i: nat, n: nat, a: string, b: string)
    requires rules.Valid() && Behaviour(states, moves, rules) && StampedSince(states, moves, i, n, a, b)
    ensures Newer(states[n].dir, a, b)
  {
    if i == n - 1 {
      NewerNext(states, moves, rules, i, a, b);
    } else {
      StampedBefore(states, moves, i, n, a, b);
      StampedSinceIsNewer(states, moves, rules, i, n - 1, a, b);
      NewerNext(states, moves, rules, n - 1, a, b);
    }
  }

  lemma NewerNext(states: seq<Set>, moves: seq<Move>, rules: Rules, n: nat, a: string, b: string)
    requires rules.Valid() && Behaviour(states, moves, rules) && n < |moves| && a != b
    requires Stamps(states[n], moves[n], a) ||
      (Newer(states[n].dir, a, b) && !Writes(states[n], moves[n], a) && !Writes(states[n], moves[n], b))
    ensures Newer(states[n + 1].dir, a, b)
  {
    SoundStep(states, moves, rules, n);
    if Stamps(states[n], moves[n], a) {
      StampMakesNewer(states[n], states[n + 1], rules, moves[n], a, b);
    } else {
      NewerStays(states[n], states[n + 1], rules, moves[n], a, b);
    }
  }

  lemma StampedBefore(states: seq<Set>, moves: seq<Move>, i: nat, n: nat, a: string, b: string)
    requires StampedSince(states, moves, i, n, a, b) && i < n - 1
    ensures StampedSince(states, moves, i, n - 1, a, b)
    ensures !Writes(states[n - 1], moves[n - 1], a) && !Writes(states[n - 1], moves[n - 1], b)
  {
  }

  lemma SoundStep(states: seq<Set>, moves: seq<Move>, rules: Rules, n: nat)
    requires rules.Valid() && Behaviour(states, moves, rules) && n < |moves|
    ensures Inv(states[n], rules) && Next(states[n], states[n + 1], rules, moves[n])
  {
    EveryStateSound(states, moves, rules, n);
  }

  /** Whatever is killed, and wherever: a name whose last write was stamped after the
      last write of another is listed ahead of it, in every listing from then on. */
  lemma StampedLaterIsListedFirst(
    states: seq<Set>, moves: seq<Move>, rules: Rules, i: nat, n: nat, listing: seq<Snapshot>, x: nat, y: nat)
    requires rules.Valid() && Behaviour(states, moves, rules) && n < |states| && IsListing(states[n].dir, listing)
    requires x < |listing| && y < |listing| && StampedSince(states, moves, i, n, listing[x].name, listing[y].name)
    ensures x < y
  {
    StampedSinceIsNewer(states, moves, rules, i, n, listing[x].name, listing[y].name);
    InListing(states[n].dir, listing, listing[x]);
    InListing(states[n].dir, listing, listing[y]);
    assert y < x ==> CompareNewest(listing[y], listing[x]) <= 0;
  }

  // ---- What stands, while no take is cut short between its rename and its stamp ----

  /** The step ends a take whose snapshot is in the set without its stamp, or loses
      stamps already made. */
  predicate EndsUnstamped(s: Set, move: Move) {
    ((move.Releasing? || move.Killing?) && s.holder.Some? && s.holder.value.phase.Renamed?) ||
    (move.Killing? && move.lost != map[])
  }

  /** The names stamped by the first n steps, in order. */
  function NamesStamped(states: seq<Set>, moves: seq<Move>, n: nat): seq<string>
    requires n <= |moves| <= |states|
  {
    if n == 0 then []
    else
      var before, content := NamesStamped(states, moves, n - 1), HolderContent(states[n - 1]);
      if moves[n - 1].Stamping? && content.Some? then before + [content.value.Name()] else before
  }

  ghost predicate ListsFirst(dir: Dir, recent: seq<string>, keep: nat) {
    exists listing :: IsListing(dir, listing) && Alike(listing, recent, keep)
  }

  /** content's file stands, not yet stamped, in a directory that listed recent first. */
  ghost predicate PutUpon(dir: Dir, recent: seq<string>, keep: nat, content: Export, newest: int) {
    exists before: Dir, listing, mtime: int ::
      IsListing(before, listing) && Alike(listing, recent, keep) && newest == NewestOther(listing, content.Name()) &&
      PutIn(before, dir, content, mtime)
  }

  /** The newest keep of the listing are the newest keep of recent. */
  ghost predicate Remembers(s: Set, rules: Rules, recent: seq<string>) {
    if s.holder.None? then ListsFirst(s.dir, recent, rules.keep)
    else
      match s.holder.value.phase
      case Clearing => ListsFirst(s.dir, recent, rules.keep)
      case Staging(_, content, newest) =>
        exists listing :: IsListing(s.dir, listing) && Alike(listing, recent, rules.keep) &&
          newest == NewestOther(listing, content.Name())
      case Renamed(content, newest) => PutUpon(s.dir, recent, rules.keep, content, newest)
      case Stamped(_, _) => ListsFirst(s.dir, recent, rules.keep)
  }

  /** A file that is no snapshot may come, go or change unseen. */
  lemma UnlistedUnseen(dir: Dir, dir': Dir, name: string, listing: seq<Snapshot>)
    requires !IsSnapshotName(name) && dir - {name} == dir' - {name} && IsListing(dir, listing)
    ensures IsListing(dir', listing)
  {
    forall s: Snapshot
      ensures multiset(listing)[s] == if Listed(dir', s.name) && s.created == dir'[s.name].mtime then 1 else 0 {
      InListing(dir, listing, s);
      if s.name != name {
        SameBut(dir, dir', name, s.name);
      }
    }
    ListingFrom(dir', listing);
  }

  lemma SameBut(dir: Dir, dir': Dir, name: string, other: string)
    requires dir - {name} == dir' - {name} && other != name
    ensures other in dir <==> other in dir'
    ensures other in dir ==> dir[other] == dir'[other]
  {
    assert other in dir <==> other in dir - {name};
    assert other in dir' <==> other in dir' - {name};
    if other in dir {
      assert (dir - {name})[other] == (dir' - {name})[other];
    }
  }

  // ---- Each step remembers ----

  lemma ClearRemembers(s: Set, s': Set, rules: Rules, recent: seq<string>, name: string)
    requires Remembers(s, rules, recent) && ClearOne(s, s', name)
    ensures Remembers(s', rules, recent)
  {
    var listing :| IsListing(s.dir, listing) && Alike(listing, recent, rules.keep);
    TempIsNoSnapshot(name);
    UnlistedUnseen(s.dir, s'.dir, name, listing);
  }

  lemma StageRemembers(
    s: Set, s': Set, rules: Rules, recent: seq<string>, content: Export, digits: string, listing: seq<Snapshot>,
    mtime: int)
    requires Remembers(s, rules, recent) && Stage(s, s', rules, content, digits, listing, mtime)
    ensures Remembers(s', rules, recent)
  {
    var was :| IsListing(s.dir, was) && Alike(was, recent, rules.keep);
    ListingIsUnique(s.dir, was, listing);
    TempOf(content, digits);
    UnlistedUnseen(s.dir, s'.dir, TempName(content.Name(), digits), listing);
  }

  lemma FillRemembers(s: Set, s': Set, rules: Rules, recent: seq<string>, bytes: nat, mtime: int)
    requires Inv(s, rules) && Remembers(s, rules, recent) && Fill(s, s', bytes, mtime)
    ensures Remembers(s', rules, recent)
  {
    var phase := s.holder.value.phase;
    var listing :| IsListing(s.dir, listing) && Alike(listing, recent, rules.keep) &&
      phase.newest == NewestOther(listing, phase.content.Name());
    TempIsNoSnapshot(phase.temp);
    UnlistedUnseen(s.dir, s'.dir, phase.temp, listing);
  }

  lemma RenameRemembers(s: Set, s': Set, rules: Rules, recent: seq<string>)
    requires Inv(s, rules) && Remembers(s, rules, recent) && Rename(s, s')
    ensures Remembers(s', rules, recent)
  {
    var phase := s.holder.value.phase;
    var listing :| IsListing(s.dir, listing) && Alike(listing, recent, rules.keep) &&
      phase.newest == NewestOther(listing, phase.content.Name());
    var before, name, mtime := s.dir - {phase.temp}, phase.content.Name(), s.dir[phase.temp].mtime;
    TempIsNoSnapshot(phase.temp);
    NameIsSnapshot(phase.content);
    UnlistedUnseen(s.dir, before, phase.temp, listing);
    assert s.dir[phase.temp] == Entry(false, mtime, phase.content.payload);
    assert PutIn(before, s'.dir, phase.content, mtime);
  }

  lemma StampRemembers(s: Set, s': Set, rules: Rules, recent: seq<string>)
    requires rules.Valid() && Remembers(s, rules, recent) && StampIt(s, s', rules) && DistinctNames(recent)
    ensures var name := s.holder.value.phase.content.Name(); Remembers(s', rules, [name] + Without(recent, name))
  {
    StampedUpon(s.dir, s'.dir, rules, recent, s.holder.value.phase.content, s.holder.value.phase.newest);
  }

  lemma StampedUpon(dir: Dir, dir': Dir, rules: Rules, recent: seq<string>, content: Export, newest: int)
    requires rules.Valid() && DistinctNames(recent) && PutUpon(dir, recent, rules.keep, content, newest)
    requires content.Name() in dir
    requires var name := content.Name();
      dir' == dir[name := dir[name].(mtime := rules.round(NextStamp(newest, dir[name].mtime)))]
    ensures ListsFirst(dir', [content.Name()] + Without(recent, content.Name()), rules.keep)
  {
    var before: Dir, listing, mtime: int :|
      IsListing(before, listing) && Alike(listing, recent, rules.keep) &&
      newest == NewestOther(listing, content.Name()) &&
      PutIn(before, dir, content, mtime);
    var stamp := rules.round(NextStamp(newest, mtime));
    StampedLists(before, listing, recent, rules, content, mtime);
    assert dir' == before[content.Name() := Entry(false, stamp, content.payload)];
  }

  lemma StampedLists(
    before: Dir, listing: seq<Snapshot>, recent: seq<string>, rules: Rules, content: Export, mtime: int)
    requires rules.Valid() && IsListing(before, listing) && Alike(listing, recent, rules.keep) && DistinctNames(recent)
    ensures var name := content.Name(); var stamp := StampOf(rules, listing, content, mtime);
      ListsFirst(before[name := Entry(false, stamp, content.payload)], [name] + Without(recent, name), rules.keep)
  {
    var name, stamp := content.Name(), StampOf(rules, listing, content, mtime);
    NameIsSnapshot(content);
    StampIsNewest(listing, name, mtime, rules.round);
    WrittenFirst(before, listing, name, Entry(false, stamp, content.payload));
    ListingIsDistinct(before, listing);
    StampedAlike(listing, recent, name, stamp, rules.keep);
  }

  lemma StampedAlike(listing: seq<Snapshot>, recent: seq<string>, name: string, stamp: int, keep: nat)
    requires keep > 0 && Alike(listing, recent, keep) && DistinctNames(Names(listing)) && DistinctNames(recent)
    ensures Alike([Snapshot(name, stamp)] + DropName(listing, name), [name] + Without(recent, name), keep)
  {
    TakenAlike(Names(listing), recent, name, keep);
    DropNameNames(listing, name);
    HeadNames(Snapshot(name, stamp), DropName(listing, name));
  }

  lemma PruneRemembers(s: Set, s': Set, rules: Rules, recent: seq<string>, listing: seq<Snapshot>)
    requires Remembers(s, rules, recent) && PruneOne(s, s', rules, listing)
    ensures Remembers(s', rules, recent)
  {
    RemovedPastKeep(s.dir, recent, rules.keep, listing);
  }

  /** Removing the first file past the newest keep leaves the newest keep. */
  lemma RemovedPastKeep(dir: Dir, recent: seq<string>, keep: nat, listing: seq<Snapshot>)
    requires ListsFirst(dir, recent, keep) && IsListing(dir, listing) && keep < |listing|
    ensures ListsFirst(dir - {listing[keep].name}, recent, keep)
  {
    var was :| IsListing(dir, was) && Alike(was, recent, keep);
    ListingIsUnique(dir, was, listing);
    RemovedOne(dir, listing, keep);
    SkippedAlike(listing, recent, keep);
  }

  lemma SkippedAlike(listing: seq<Snapshot>, recent: seq<string>, keep: nat)
    requires Alike(listing, recent, keep) && keep < |listing|
    ensures Alike(listing[..keep] + listing[keep + 1..], recent, keep)
  {
    var left := listing[..keep] + listing[keep + 1..];
    assert FirstOf(left, keep) == FirstOf(listing, keep);
    FirstNames(left, keep);
    FirstNames(listing, keep);
  }

  lemma NoStampLost(s: Set, s': Set)
    requires Kill(s, s', map[])
    ensures s'.dir == s.dir && s'.holder.None? && s.holder.Some?
  {
  }

  /** A take that ends by dying, or by giving the lock up, with or without its temp
      file, leaves the listing as it was. */
  lemma EndRemembers(s: Set, s': Set, rules: Rules, recent: seq<string>, move: Move)
    requires Inv(s, rules) && Remembers(s, rules, recent) && Next(s, s', rules, move)
    requires (move.Releasing? || move.Killing?) && !EndsUnstamped(s, move)
    ensures Remembers(s', rules, recent)
  {
    if move.Killing? {
      NoStampLost(s, s');
    }
    var phase := s.holder.value.phase;
    if phase.Staging? {
      StagedRemembers(s, s', rules, recent);
    }
  }

  lemma StagedRemembers(s: Set, s': Set, rules: Rules, recent: seq<string>)
    requires Inv(s, rules) && Remembers(s, rules, recent) && s.holder.Some? && s.holder.value.phase.Staging?
    requires s'.holder.None? && s'.dir - {s.holder.value.phase.temp} == s.dir - {s.holder.value.phase.temp}
    ensures Remembers(s', rules, recent)
  {
    var phase := s.holder.value.phase;
    var listing :| IsListing(s.dir, listing) && Alike(listing, recent, rules.keep) &&
      phase.newest == NewestOther(listing, phase.content.Name());
    TempIsNoSnapshot(phase.temp);
    UnlistedUnseen(s.dir, s'.dir, phase.temp, listing);
  }

  lemma NextRemembers(s: Set, s': Set, rules: Rules, move: Move, recent: seq<string>)
    requires rules.Valid() && Inv(s, rules) && Remembers(s, rules, recent) && Next(s, s', rules, move)
    requires DistinctNames(recent) && !EndsUnstamped(s, move)
    ensures var content := HolderContent(s);
      Remembers(s', rules,
        if move.Stamping? && content.Some?
          then [content.value.Name()] + Without(recent, content.value.Name())
        else recent)
  {
    match move
    case Acquiring(_) => {}
    case ClearingOne(name) => ClearRemembers(s, s', rules, recent, name);
    case StagingOne(content, digits, listing, mtime) =>
      StageRemembers(s, s', rules, recent, content, digits, listing, mtime);
    case Filling(bytes, mtime) => FillRemembers(s, s', rules, recent, bytes, mtime);
    case Renaming => RenameRemembers(s, s', rules, recent);
    case Stamping => StampRemembers(s, s', rules, recent);
    case PruningOne(listing) => PruneRemembers(s, s', rules, recent, listing);
    case _ => EndRemembers(s, s', rules, recent, move);
  }

  // ---- Whole runs ----

  ghost predicate AlwaysStamped(states: seq<Set>, moves: seq<Move>, n: nat) {
    n <= |moves| <= |states| && forall k :: 0 <= k < n ==> !EndsUnstamped(states[k], moves[k])
  }

  lemma {:induction false} EveryStateRemembers(
    states: seq<Set>, moves: seq<Move>, rules: Rules, n: nat, listing: seq<Snapshot>)
    requires rules.Valid() && Behaviour(states, moves, rules) && AlwaysStamped(states, moves, n)
    requires IsListing(states[0].dir, listing)
    ensures Remembers(states[n], rules, Recent(Names(listing), NamesStamped(states, moves, n)))
  {
    if n > 0 {
      var recent := Recent(Names(listing), NamesStamped(states, moves, n - 1));
      EveryStateRemembers(states, moves, rules, n - 1, listing);
      SoundStep(states, moves, rules, n - 1);
      ListingIsDistinct(states[0].dir, listing);
      RecentIsDistinct(Names(listing), NamesStamped(states, moves, n - 1));
      assert !EndsUnstamped(states[n - 1], moves[n - 1]);
      NextRemembers(states[n - 1], states[n], rules, moves[n - 1], recent);
      StampedNext(states, moves, Names(listing), n);
    }
  }

  lemma StampedNext(states: seq<Set>, moves: seq<Move>, earlier: seq<string>, n: nat)
    requires 0 < n <= |moves| <= |states|
    ensures var recent, content := Recent(earlier, NamesStamped(states, moves, n - 1)), HolderContent(states[n - 1]);
      Recent(earlier, NamesStamped(states, moves, n)) ==
        if moves[n - 1].Stamping? && content.Some?
          then [content.value.Name()] + Without(recent, content.value.Name())
        else recent
  {
    var content := HolderContent(states[n - 1]);
    if moves[n - 1].Stamping? && content.Some? {
      RecentNext(earlier, NamesStamped(states, moves, n - 1), content.value.Name());
    }
  }

  /** Over any run of concurrent takes, killed at any step but those between a rename
      and the stamp that follows it, the newest keep of the listing are the newest keep
      of the contents by latest stamp, with what stood at the start behind them, at
      every moment but those. */
  lemma NewestKeepAreTheLastStamped(
    states: seq<Set>, moves: seq<Move>, rules: Rules, n: nat, first: seq<Snapshot>, listing: seq<Snapshot>)
    requires rules.Valid() && Behaviour(states, moves, rules) && AlwaysStamped(states, moves, n)
    requires IsListing(states[0].dir, first) && IsListing(states[n].dir, listing)
    requires states[n].holder.Some? ==> !states[n].holder.value.phase.Renamed?
    ensures Alike(listing, Recent(Names(first), NamesStamped(states, moves, n)), rules.keep)
  {
    EveryStateRemembers(states, moves, rules, n, first);
    var was :| IsListing(states[n].dir, was) &&
      Alike(was, Recent(Names(first), NamesStamped(states, moves, n)), rules.keep);
    ListingIsUnique(states[n].dir, was, listing);
  }

  /** A take completes when it gives the lock up stamped, with nothing left to prune. */
  ghost predicate Completes(s: Set, rules: Rules, move: Move) {
    s.holder.Some? && s.holder.value.phase.Stamped? && move.Releasing? &&
    forall listing, s': Set :: !PruneOne(s, s', rules, listing)
  }

  /** Then the whole listing is those names, keep of them at most. */
  lemma CompletedTakeLeavesTheLastStamped(
    states: seq<Set>, moves: seq<Move>, rules: Rules, n: nat, first: seq<Snapshot>, listing: seq<Snapshot>)
    requires rules.Valid() && Behaviour(states, moves, rules) && 0 < n && AlwaysStamped(states, moves, n)
    requires Completes(states[n - 1], rules, moves[n - 1])
    requires IsListing(states[0].dir, first) && IsListing(states[n].dir, listing)
    ensures Names(listing) == FirstOf(Recent(Names(first), NamesStamped(states, moves, n)), rules.keep)
    ensures |listing| <= rules.keep
  {
    CompletedTakeKeepsToItsBound(states, moves, rules, n, listing);
    assert Next(states[n - 1], states[n], rules, moves[n - 1]);
    NewestKeepAreTheLastStamped(states, moves, rules, n, first, listing);
    assert FirstOf(Names(listing), rules.keep) == Names(listing);
  }

  /** However the takes before it ended, a completed take leaves keep snapshots at most. */
  lemma CompletedTakeKeepsToItsBound(states: seq<Set>, moves: seq<Move>, rules: Rules, n: nat, listing: seq<Snapshot>)
    requires Behaviour(states, moves, rules) && 0 < n <= |moves| && Completes(states[n - 1], rules, moves[n - 1])
    requires IsListing(states[n].dir, listing)
    ensures |listing| <= rules.keep
  {
    var s := states[n - 1];
    assert Next(s, states[n], rules, moves[n - 1]) && states[n].dir == s.dir;
    if |listing| > rules.keep {
      assert PruneOne(s, s.(dir := s.dir - {listing[rules.keep].name}), rules, listing);
    }
  }
}
