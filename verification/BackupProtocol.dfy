// The backups directory under concurrent takes that may be killed at any step:
// internal/backup/backup.go over internal/atomicfile/atomicfile.go.
module BackupProtocol {
  import opened Model
  import opened AtomicFile
  import opened Backups

  /** Where the take holding the set's lock is. Staging and Renamed carry the
      newest other mtime the take listed before its write, Stamped the mtime the
      write had before its stamp. */
  datatype Phase =
    | Clearing
    | Staging(temp: string, content: Export, newest: int)
    | Renamed(content: Export, newest: int)
    | Stamped(content: Export, written: int)

  datatype Holder = Holder(take: nat, phase: Phase)

  /** The directory, the lock, which take drew each temp name, and the takes that
      are over: released, or killed. */
  datatype Set = Set(dir: Dir, holder: Option<Holder>, owner: map<string, nat>, over: set<nat>)

  datatype Rules = Rules(keep: nat, round: int -> int, genuine: (string, string) -> bool)
  {
    /** keep is positive, the file system rounds by less than the order step, and
        genuine tells which payloads are whole exports of a digest's content. */
    ghost predicate Valid() { keep > 0 && Granular(round) }

    /** Under a snapshot name stands a whole export of the content it names. */
    ghost predicate Whole(dir: Dir, name: string) {
      Listed(dir, name) ==> exists content: Export ::
        content.Name() == name && genuine(content.digest, content.payload) && dir[name].payload == content.payload
    }
  }

  /** The newest mtime among the listed files but the named one, floored at zero. */
  ghost predicate IsNewestOther(dir: Dir, name: string, newest: int) {
    newest >= 0 && forall other :: other != name && Listed(dir, other) ==> dir[other].mtime <= newest
  }

  ghost predicate StrictlyNewest(dir: Dir, name: string) {
    Listed(dir, name) && forall other :: other != name && Listed(dir, other) ==> dir[other].mtime < dir[name].mtime
  }

  // ---- The steps ----

  ghost predicate Acquire(s: Set, s': Set, take: nat) {
    s.holder.None? && take !in s.over && (forall temp :: temp in s.owner ==> s.owner[temp] != take) &&
    s' == s.(holder := Some(Holder(take, Clearing)))
  }

  ghost predicate ClearOne(s: Set, s': Set, name: string) {
    s.holder.Some? && s.holder.value.phase.Clearing? && IsResidue(s.dir, name) && s' == s.(dir := s.dir - {name})
  }

  /** The set listed, then an unused temp name of the target created, empty. */
  ghost predicate Stage(
    s: Set, s': Set, rules: Rules, content: Export, digits: string, listing: seq<Snapshot>, mtime: int) {
    var temp, newest := TempName(content.Name(), digits), NewestOther(listing, content.Name());
    s.holder.Some? && s.holder.value.phase.Clearing? && temp !in s.dir && digits != "" && IsDigits(digits) &&
    rules.genuine(content.digest, content.payload) && IsListing(s.dir, listing) &&
    s' == s.(dir := s.dir[temp := Entry(false, mtime, "")], owner := s.owner[temp := s.holder.value.take],
             holder := Some(s.holder.value.(phase := Staging(temp, content, newest))))
  }

  /** Some more of the payload reaches the temp file. */
  ghost predicate Fill(s: Set, s': Set, bytes: nat, mtime: int) {
    s.holder.Some? && s.holder.value.phase.Staging? &&
    var phase := s.holder.value.phase;
    bytes <= |phase.content.payload| &&
      s' == s.(dir := s.dir[phase.temp := Entry(false, mtime, phase.content.payload[..bytes])])
  }

  /** The filled temp file takes the target's name; a directory there refuses it. */
  ghost predicate Rename(s: Set, s': Set) {
    s.holder.Some? && s.holder.value.phase.Staging? &&
    var phase := s.holder.value.phase; var name := phase.content.Name();
    phase.temp in s.dir && s.dir[phase.temp].payload == phase.content.payload &&
    (name in s.dir ==> !s.dir[name].isDir) &&
    s' == s.(dir := (s.dir - {phase.temp})[name := s.dir[phase.temp]],
             holder := Some(s.holder.value.(phase := Renamed(phase.content, phase.newest))))
  }

  ghost predicate StampIt(s: Set, s': Set, rules: Rules) {
    s.holder.Some? && s.holder.value.phase.Renamed? &&
    var phase := s.holder.value.phase; var name := phase.content.Name();
    name in s.dir &&
    s' == s.(dir := s.dir[name := s.dir[name].(mtime := rules.round(NextStamp(phase.newest, s.dir[name].mtime)))],
             holder := Some(s.holder.value.(phase := Stamped(phase.content, s.dir[name].mtime))))
  }

  /** The newest file past the newest keep of the listing is removed. */
  ghost predicate PruneOne(s: Set, s': Set, rules: Rules, listing: seq<Snapshot>) {
    s.holder.Some? && s.holder.value.phase.Stamped? && IsListing(s.dir, listing) && rules.keep < |listing| &&
    s' == s.(dir := s.dir - {listing[rules.keep].name})
  }

  /** The lock given up: the take finished, or failed with its temp file removed
      or, where that failed too, left. */
  ghost predicate Release(s: Set, s': Set, removeTemp: bool) {
    s.holder.Some? &&
    var left := if removeTemp && s.holder.value.phase.Staging? then s.dir - {s.holder.value.phase.temp} else s.dir;
    s' == s.(dir := left, holder := None, over := s.over + {s.holder.value.take})
  }

  /** A take that gives its write up and cleans behind it leaves no temp file of its own,
      and every other file as it was. */
  lemma GivingUpCleans(s: Set, s': Set, name: string)
    requires Release(s, s', true) && s.holder.value.phase.Staging?
    ensures name in s'.dir <==> name in s.dir && name != s.holder.value.phase.temp
    ensures name in s'.dir ==> s'.dir[name] == s.dir[name]
  {
  }

  /** The directory with some mtimes moved. */
  function WithMTimes(dir: Dir, lost: map<string, int>): Dir {
    map name | name in dir :: if name in lost then dir[name].(mtime := lost[name]) else dir[name]
  }

  /** The process holding the lock dies, if there is one, and the lock with it. A
      power loss may also lose stamps that had not reached the disk, the holder's own
      and those of takes long released alike. */
  ghost predicate Kill(s: Set, s': Set, lost: map<string, int>) {
    (s.holder.Some? || lost != map[]) && (forall name :: name in lost ==> Listed(s.dir, name)) &&
    s' == s.(dir := WithMTimes(s.dir, lost), holder := None,
             over := if s.holder.Some? then s.over + {s.holder.value.take} else s.over)
  }

  datatype Move =
    | Acquiring(take: nat)
    | ClearingOne(name: string)
    | StagingOne(content: Export, digits: string, listing: seq<Snapshot>, mtime: int)
    | Filling(bytes: nat, mtime: int)
    | Renaming
    | Stamping
    | PruningOne(listing: seq<Snapshot>)
    | Releasing(removeTemp: bool)
    | Killing(lost: map<string, int>)

  ghost predicate Next(s: Set, s': Set, rules: Rules, move: Move) {
    match move
    case Acquiring(take) => Acquire(s, s', take)
    case ClearingOne(name) => ClearOne(s, s', name)
    case StagingOne(content, digits, listing, mtime) => Stage(s, s', rules, content, digits, listing, mtime)
    case Filling(bytes, mtime) => Fill(s, s', bytes, mtime)
    case Renaming => Rename(s, s')
    case Stamping => StampIt(s, s', rules)
    case PruningOne(listing) => PruneOne(s, s', rules, listing)
    case Releasing(removeTemp) => Release(s, s', removeTemp)
    case Killing(lost) => Kill(s, s', lost)
  }

  // ---- What every step keeps ----

  /** Every temp file of the set belongs to a take that is over, but for the one
      its holder is writing. */
  ghost predicate TempsAccounted(s: Set) {
    forall name :: IsResidue(s.dir, name) && name in s.owner ==>
      s.owner[name] in s.over ||
      (s.holder.Some? && s.holder.value.phase.Staging? && s.holder.value.phase.temp == name &&
        s.holder.value.take == s.owner[name])
  }

  ghost predicate HolderSound(s: Set, rules: Rules) {
    s.holder.Some? ==>
      s.holder.value.take !in s.over &&
      match s.holder.value.phase
      case Clearing => true
      case Staging(temp, content, newest) =>
        rules.genuine(content.digest, content.payload) && IsNewestOther(s.dir, content.Name(), newest) &&
        temp in s.dir && !s.dir[temp].isDir && TempTarget(temp) == Some(content.Name()) && temp in s.owner &&
          s.owner[temp] == s.holder.value.take
      case Renamed(content, newest) => Listed(s.dir, content.Name()) && IsNewestOther(s.dir, content.Name(), newest)
      case Stamped(content, _) => StrictlyNewest(s.dir, content.Name())
  }

  ghost predicate AllWhole(s: Set, rules: Rules) {
    forall name :: name in s.dir ==> rules.Whole(s.dir, name)
  }

  ghost predicate Inv(s: Set, rules: Rules) {
    AllWhole(s, rules) && TempsAccounted(s) && HolderSound(s, rules)
  }

  lemma TempOf(content: Export, digits: string)
    requires digits != "" && IsDigits(digits)
    ensures var temp := TempName(content.Name(), digits);
      TempTarget(temp) == Some(content.Name()) && !IsSnapshotName(temp)
  {
    TempTargetInverts(TempName(content.Name(), digits), content.Name());
    TempIsNoSnapshot(TempName(content.Name(), digits));
  }

  lemma WholeElsewhere(s: Set, s': Set, rules: Rules)
    requires AllWhole(s, rules)
    requires forall name :: name in s'.dir && Listed(s'.dir, name) ==>
      name in s.dir && Listed(s.dir, name) && s'.dir[name].payload == s.dir[name].payload
    ensures AllWhole(s', rules)
  {
    forall name | name in s'.dir && Listed(s'.dir, name) ensures rules.Whole(s'.dir, name) {
      assert rules.Whole(s.dir, name);
    }
  }

  lemma ListedNewest(dir: Dir, listing: seq<Snapshot>, name: string)
    requires IsListing(dir, listing)
    ensures IsNewestOther(dir, name, NewestOther(listing, name))
  {
    NewestOtherBounds(listing, name);
    forall other | other != name && Listed(dir, other) ensures dir[other].mtime <= NewestOther(listing, name) {
      InListing(dir, listing, Snapshot(other, dir[other].mtime));
    }
  }

  lemma StageKeeps(s: Set, s': Set, rules: Rules, content: Export, digits: string, listing: seq<Snapshot>, mtime: int)
    requires Inv(s, rules) && Stage(s, s', rules, content, digits, listing, mtime)
    ensures Inv(s', rules)
  {
    TempOf(content, digits);
    ListedNewest(s.dir, listing, content.Name());
    WholeElsewhere(s, s', rules);
  }

  lemma FillKeeps(s: Set, s': Set, rules: Rules, bytes: nat, mtime: int)
    requires Inv(s, rules) && Fill(s, s', bytes, mtime)
    ensures Inv(s', rules)
  {
    TempIsNoSnapshot(s.holder.value.phase.temp);
    WholeElsewhere(s, s', rules);
  }

  lemma RenameKeeps(s: Set, s': Set, rules: Rules)
    requires Inv(s, rules) && Rename(s, s')
    ensures Inv(s', rules)
  {
    var phase := s.holder.value.phase;
    var name := phase.content.Name();
    NameIsSnapshot(phase.content);
    SnapshotIsNoTemp(name);
    TempIsNoSnapshot(phase.temp);
    forall other | other in s'.dir ensures rules.Whole(s'.dir, other) {
      if other == name {
        assert phase.content.Name() == other && rules.genuine(phase.content.digest, phase.content.payload);
      } else {
        assert rules.Whole(s.dir, other);
      }
    }
  }

  lemma StampKeeps(s: Set, s': Set, rules: Rules)
    requires rules.Valid() && Inv(s, rules) && StampIt(s, s', rules)
    ensures Inv(s', rules)
  {
    WholeElsewhere(s, s', rules);
  }

  /** The strictly newest file heads any listing, and stands in it once. */
  lemma NewestHeads(dir: Dir, listing: seq<Snapshot>, name: string, i: nat)
    requires StrictlyNewest(dir, name) && IsListing(dir, listing) && 0 < i < |listing|
    ensures listing[0].name == name && listing[i].name != name && Listed(dir, listing[i].name)
  {
    var own := Snapshot(name, dir[name].mtime);
    InListing(dir, listing, own);
    var k :| 0 <= k < |listing| && listing[k] == own;
    InListing(dir, listing, listing[0]);
    InListing(dir, listing, listing[i]);
    assert k > 0 ==> CompareNewest(listing[0], listing[k]) <= 0;
    CountTwice(listing, i);
  }

  lemma CountTwice(listing: seq<Snapshot>, i: nat)
    requires 0 < i < |listing|
    ensures listing[i] == listing[0] ==> multiset(listing)[listing[0]] >= 2
  {
    assert listing == [listing[0]] + listing[1..];
    assert multiset(listing) == multiset{listing[0]} + multiset(listing[1..]);
    assert listing[1..][i - 1] == listing[i];
  }

  lemma PruneKeeps(s: Set, s': Set, rules: Rules, listing: seq<Snapshot>)
    requires rules.Valid() && Inv(s, rules) && PruneOne(s, s', rules, listing)
    ensures Inv(s', rules)
  {
    NewestHeads(s.dir, listing, s.holder.value.phase.content.Name(), rules.keep);
    WholeElsewhere(s, s', rules);
  }

  lemma ReleaseKeeps(s: Set, s': Set, rules: Rules, removeTemp: bool)
    requires Inv(s, rules) && Release(s, s', removeTemp)
    ensures Inv(s', rules)
  {
    WholeElsewhere(s, s', rules);
  }

  lemma KillKeeps(s: Set, s': Set, rules: Rules, lost: map<string, int>)
    requires Inv(s, rules) && Kill(s, s', lost)
    ensures Inv(s', rules)
  {
    WholeElsewhere(s, s', rules);
  }

  lemma ClearKeeps(s: Set, s': Set, rules: Rules, name: string)
    requires Inv(s, rules) && ClearOne(s, s', name)
    ensures Inv(s', rules)
  {
    WholeElsewhere(s, s', rules);
  }

  lemma NextKeeps(s: Set, s': Set, rules: Rules, move: Move)
    requires rules.Valid() && Inv(s, rules) && Next(s, s', rules, move)
    ensures Inv(s', rules)
  {
    match move
    case Acquiring(take) => WholeElsewhere(s, s', rules);
    case ClearingOne(name) => ClearKeeps(s, s', rules, name);
    case StagingOne(content, digits, listing, mtime) => StageKeeps(s, s', rules, content, digits, listing, mtime);
    case Filling(bytes, mtime) => FillKeeps(s, s', rules, bytes, mtime);
    case Renaming => RenameKeeps(s, s', rules);
    case Stamping => StampKeeps(s, s', rules);
    case PruningOne(listing) => PruneKeeps(s, s', rules, listing);
    case Releasing(removeTemp) => ReleaseKeeps(s, s', rules, removeTemp);
    case Killing(lost) => KillKeeps(s, s', rules, lost);
  }

  // ---- Whole runs ----

  /** Any interleaving of takes and kills, from a directory of whole snapshots and
      whatever temp files earlier kills left. */
  ghost predicate Behaviour(states: seq<Set>, moves: seq<Move>, rules: Rules) {
    && |states| == |moves| + 1
    && states[0].holder.None? && states[0].owner == map[] && AllWhole(states[0], rules)
    && (forall i :: 0 <= i < |moves| ==> Next(states[i], states[i + 1], rules, moves[i]))
  }

  lemma {:induction false} EveryStateSound(states: seq<Set>, moves: seq<Move>, rules: Rules, n: nat)
    requires rules.Valid() && Behaviour(states, moves, rules) && n <= |moves|
    ensures Inv(states[n], rules)
  {
    if n > 0 {
      EveryStateSound(states, moves, rules, n - 1);
      assert Next(states[n - 1], states[n], rules, moves[n - 1]);
      NextKeeps(states[n - 1], states[n], rules, moves[n - 1]);
    }
  }

  /** A reader that takes no lock, at any moment of any run, finds a whole export
      of the named content under every snapshot name: never a partial file. */
  lemma ReadersSeeWholeFiles(states: seq<Set>, moves: seq<Move>, rules: Rules, n: nat, name: string)
    requires rules.Valid() && Behaviour(states, moves, rules) && n <= |moves| && Listed(states[n].dir, name)
    ensures exists digest :: name == digest + SNAPSHOT_EXT && rules.genuine(digest, states[n].dir[name].payload)
  {
    EveryStateSound(states, moves, rules, n);
    assert rules.Whole(states[n].dir, name);
    var content: Export :| content.Name() == name && rules.genuine(content.digest, content.payload) &&
      states[n].dir[name].payload == content.payload;
    assert name == content.digest + SNAPSHOT_EXT;
  }

  /** Every temp file a lock holder removes is a dead take's, and never a snapshot:
      the lock alone proves it, with no age to guess at. */
  lemma RemovedTempsAreDead(states: seq<Set>, moves: seq<Move>, rules: Rules, n: nat, name: string)
    requires rules.Valid() && Behaviour(states, moves, rules) && n < |moves| && moves[n] == ClearingOne(name)
    ensures !IsSnapshotName(name)
    ensures name in states[n].owner ==> states[n].owner[name] in states[n].over
  {
    EveryStateSound(states, moves, rules, n);
    assert Next(states[n], states[n + 1], rules, moves[n]);
    TempIsNoSnapshot(name);
  }

  /** Whatever was killed before it, and at whatever step, a take that has stamped
      is strictly the newest, and its own prune never removes it. */
  lemma StampedIsStrictlyNewest(states: seq<Set>, moves: seq<Move>, rules: Rules, n: nat)
    requires rules.Valid() && Behaviour(states, moves, rules) && n <= |moves|
    requires states[n].holder.Some? && states[n].holder.value.phase.Stamped?
    ensures StrictlyNewest(states[n].dir, states[n].holder.value.phase.content.Name())
  {
    EveryStateSound(states, moves, rules, n);
  }

  /** At most the holder's own temp file belongs to a take still running, so the
      next take to clear can reclaim every other. */
  lemma OneLiveTemp(states: seq<Set>, moves: seq<Move>, rules: Rules, n: nat, a: string, b: string)
    requires rules.Valid() && Behaviour(states, moves, rules) && n <= |moves|
    requires a in states[n].owner && b in states[n].owner && IsResidue(states[n].dir, a) && IsResidue(states[n].dir, b)
    requires states[n].owner[a] !in states[n].over && states[n].owner[b] !in states[n].over
    ensures a == b && states[n].holder.Some? && states[n].holder.value.take == states[n].owner[a]
  {
    EveryStateSound(states, moves, rules, n);
  }
}
