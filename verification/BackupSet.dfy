// The backups directory under its one writer: internal/backup/backup.go.
module BackupSet {
  import opened Model
  import opened Sorting
  import opened AtomicFile
  import opened Backups

  /** What a take wrote: whether its content already stood there, whether its
      stamp was moved past the clock, and how many snapshots its prune removed. */
  datatype Written = Written(name: string, created: int, refreshed: bool, restamped: bool, pruned: nat)

  datatype Taken = Taken(residueRemoved: nat, residueStuck: nat, written: Option<Written>)

  /** What the file system lets one take do, call by call: read the directory for
      residue, list it ahead of the write, write, look at the written file, stamp it,
      look again, list for the prune, and remove a file. */
  datatype Faults = Faults(
    residues: bool, lists: bool, writes: bool, stats: bool, stamps: bool, restats: bool, relists: bool,
    removable: string -> bool)

  predicate IsDir(dir: Dir, name: string) { name in dir && dir[name].isDir }

  ghost function Residue(dir: Dir): set<string> { set name | name in dir && IsResidue(dir, name) }

  ghost function Going(dir: Dir, removable: string -> bool): set<string> {
    set name | name in dir && IsResidue(dir, name) && removable(name)
  }

  ghost function Max(a: int, b: int): int { if a > b then a else b }

  /** The listing a successful take leaves: the first keep of its own name
      followed by the other names in the order they stood in, its own stamped past
      the newest of them by no more than the step, or as the clock read. */
  ghost predicate TookNames(listing: seq<Snapshot>, listing': seq<Snapshot>, keep: nat, name: string, written: int) {
    && Names(listing') == FirstOf([name] + Without(Names(listing), name), keep)
    && listing' != [] && listing'[0].created <= Max(written, NewestOther(listing, name) + ORDER_STEP)
    && (forall s :: s in listing' && s != listing'[0] ==> s in listing && s.name != name)
  }

  /** Its content stands under its name; everything else that stands stood there
      before, and only snapshots and the temp files of dead takes are gone. */
  ghost predicate TookContent(before: Dir, after: Dir, content: Export) {
    && content.Name() in after && after[content.Name()].payload == content.payload
    && (forall name :: name in after && name != content.Name() ==> name in before && after[name] == before[name])
    && (forall name ::
      name in before && name != content.Name() && !Listed(before, name) && !IsResidue(before, name) ==> name in after)
  }

  /** A take that succeeded, from one directory and listing to the next; written
      is the mtime its write had before the stamp. */
  ghost predicate Took(
    before: Dir, listing: seq<Snapshot>, after: Dir, listing': seq<Snapshot>, keep: nat, content: Export,
    written: int) {
    && IsListing(before, listing) && IsListing(after, listing')
    && TookNames(listing, listing', keep, content.Name(), written)
    && TookContent(before, after, content)
  }

  function Kept(snapshots: seq<Snapshot>, keep: nat): nat { if keep < |snapshots| then keep else |snapshots| }

  /** The listing with the snapshots from rank m up to rank i removed. */
  function Skip(snapshots: seq<Snapshot>, m: nat, i: nat): seq<Snapshot>
    requires m <= i <= |snapshots|
  {
    snapshots[..m] + snapshots[i..]
  }

  lemma SkipOne(snapshots: seq<Snapshot>, m: nat, i: nat)
    requires m <= i < |snapshots|
    ensures var left := Skip(snapshots, m, i);
      m < |left| && left[m] == snapshots[i] && left[..m] + left[m + 1..] == Skip(snapshots, m, i + 1)
  {
  }

  /** Only snapshots have gone, and nothing that stayed has changed. */
  ghost predicate Pruned(before: Dir, after: Dir) {
    && (forall name :: name in after ==> name in before && after[name] == before[name])
    && (forall name :: name in before && !Listed(before, name) ==> name in after)
  }

  lemma PrunedOne(before: Dir, dir: Dir, listing: seq<Snapshot>, i: nat)
    requires Pruned(before, dir) && IsListing(dir, listing) && i < |listing|
    ensures Pruned(before, dir - {listing[i].name})
  {
    InListing(dir, listing, listing[i]);
  }

  lemma OneDone(all: set<string>, left: set<string>, name: string)
    requires name in left
    ensures all - (left - {name}) == (all - left) + (if name in all then {name} else {})
    ensures |all - (left - {name})| == |all - left| + if name in all then 1 else 0
  {
    assert all - (left - {name}) == (all - left) + (if name in all then {name} else {});
  }

  /** The names read so far that are going are gone, and those staying counted. */
  ghost predicate Sifted(
    dir: Dir, going: set<string>, staying: set<string>, left: set<string>, entries: Dir, removed: nat, stuck: nat) {
    left <= dir.Keys && entries == dir - (going - left) && removed == |going - left| && stuck == |staying - left|
  }

  lemma SiftsNext(
    dir: Dir, going: set<string>, staying: set<string>, left: set<string>, name: string, entries: Dir, removed: nat,
    stuck: nat)
    requires Sifted(dir, going, staying, left, entries, removed, stuck) && name in left && going !! staying
    ensures name in entries && entries[name] == dir[name]
    ensures name !in going && name !in staying ==> Sifted(dir, going, staying, left - {name}, entries, removed, stuck)
    ensures name in staying ==> Sifted(dir, going, staying, left - {name}, entries, removed, stuck + 1)
    ensures name in going ==> Sifted(dir, going, staying, left - {name}, entries - {name}, removed + 1, stuck)
  {
    OneDone(going, left, name);
    OneDone(staying, left, name);
    if name !in going {
      assert going - (left - {name}) == going - left;
    } else {
      assert dir - (going - (left - {name})) == dir - (going - left) - {name};
    }
  }

  ghost predicate SiftedBy(
    dir: Dir, removable: string -> bool, left: set<string>, entries: Dir, removed: nat, stuck: nat) {
    Sifted(dir, Going(dir, removable), Residue(dir) - Going(dir, removable), left, entries, removed, stuck)
  }

  lemma SiftsByResidue(
    dir: Dir, removable: string -> bool, left: set<string>, name: string, entries: Dir, removed: nat, stuck: nat)
    requires SiftedBy(dir, removable, left, entries, removed, stuck) && name in left
    ensures name in entries && entries[name] == dir[name]
    ensures !IsResidue(dir, name) ==> SiftedBy(dir, removable, left - {name}, entries, removed, stuck)
    ensures IsResidue(dir, name) && !removable(name) ==>
      SiftedBy(dir, removable, left - {name}, entries, removed, stuck + 1)
    ensures IsResidue(dir, name) && removable(name) ==>
      SiftedBy(dir, removable, left - {name}, entries - {name}, removed + 1, stuck)
  {
    SiftsNext(dir, Going(dir, removable), Residue(dir) - Going(dir, removable), left, name, entries, removed, stuck);
  }

  lemma SiftedAll(dir: Dir, removable: string -> bool, entries: Dir, removed: nat, stuck: nat)
    requires SiftedBy(dir, removable, {}, entries, removed, stuck)
    ensures entries == dir - Going(dir, removable)
    ensures removed == |Going(dir, removable)| && stuck == |Residue(dir) - Going(dir, removable)|
  {
    assert Going(dir, removable) - {} == Going(dir, removable);
    assert Residue(dir) - Going(dir, removable) - {} == Residue(dir) - Going(dir, removable);
  }

  /** A prune that has removed the snapshots from rank m up to rank i. */
  ghost predicate PrunedTo(dir: Dir, before: seq<Snapshot>, entries: Dir, m: nat, i: nat) {
    m <= i <= |before| && IsListing(entries, Skip(before, m, i)) && Pruned(dir, entries)
  }

  lemma PrunesNone(dir: Dir, before: seq<Snapshot>, m: nat, i: nat)
    requires IsListing(dir, before) && m == i <= |before|
    ensures PrunedTo(dir, before, dir, m, i)
  {
    assert Skip(before, m, m) == before;
  }

  lemma PrunesNext(dir: Dir, before: seq<Snapshot>, entries: Dir, m: nat, i: nat)
    requires PrunedTo(dir, before, entries, m, i) && i < |before|
    ensures PrunedTo(dir, before, entries - {before[i].name}, m, i + 1)
  {
    var left := Skip(before, m, i);
    SkipOne(before, m, i);
    RemovedOne(entries, left, m);
    PrunedOne(dir, entries, left, m);
  }

  lemma ListsSnapshots(dir: Dir, listing: seq<Snapshot>, i: nat)
    requires IsListing(dir, listing) && i < |listing|
    ensures IsSnapshotName(listing[i].name)
  {
    InListing(dir, listing, listing[i]);
  }

  lemma ReadNext(dir: Dir, left: set<string>, name: string)
    requires name in left && name in dir
    ensures dir - (left - {name}) == (dir - left)[name := dir[name]]
  {
  }

  class BackupSet {
    var entries: Dir
    const round: int -> int

    constructor (round: int -> int)
      ensures entries == map[] && this.round == round
    {
      entries := map[];
      this.round := round;
    }

    /** Entries are read in no particular order, then sorted; readable is whether the
        directory and its files' information can be read. */
    method List(readable: bool) returns (snapshots: seq<Snapshot>, failed: bool)
      ensures failed <==> !readable
      ensures !failed ==> IsListing(entries, snapshots)
    {
      snapshots := [];
      if !readable {
        return snapshots, true;
      }
      var left := entries.Keys;
      while left != {}
        invariant left <= entries.Keys && multiset(snapshots) == multiset(SnapshotsOf(entries - left))
        decreases left
      {
        var name :| name in left;
        ReadOne(entries - left, name, entries[name], snapshots);
        ReadNext(entries, left, name);
        left := left - {name};
        if entries[name].isDir || !IsSnapshotName(name) {
          continue;
        }
        snapshots := snapshots + [Snapshot(name, entries[name].mtime)];
      }
      assert entries - left == entries;
      NewestOrders();
      snapshots := SortFunc(snapshots, CompareNewest);
      failed := false;
    }

    /** The temp files of takes killed mid-write, and nothing else, are removed. */
    method RemoveResidue(readable: bool, removable: string -> bool) returns (removed: nat, stuck: nat, failed: bool)
      modifies this`entries
      ensures !readable ==> failed && removed == stuck == 0 && entries == old(entries)
      ensures readable ==> entries == old(entries) - Going(old(entries), removable)
      ensures readable ==>
        removed == |Going(old(entries), removable)| && stuck == |Residue(old(entries)) - Going(old(entries), removable)|
      ensures readable ==> (failed <==> stuck > 0)
    {
      removed, stuck := 0, 0;
      if !readable {
        return 0, 0, true;
      }
      var left := entries.Keys;
      while left != {}
        invariant SiftedBy(old(entries), removable, left, entries, removed, stuck)
        decreases left
      {
        var name :| name in left;
        SiftsByResidue(old(entries), removable, left, name, entries, removed, stuck);
        left := left - {name};
        if !IsResidue(entries, name) {
          continue;
        }
        if !removable(name) {
          stuck := stuck + 1;
          continue;
        }
        entries := entries - {name};
        removed := removed + 1;
      }
      SiftedAll(old(entries), removable, entries, removed, stuck);
      failed := stuck > 0;
    }

    /** The content put under its name and stamped after every other snapshot. A
        write that fails leaves the name as it was; a stamp that fails, or is never
        come to, leaves the clock's mtime; a file that cannot be looked at goes
        unreported, as it stands. */
    method Create(content: Export, clock: int, faults: Faults)
      returns (written: Option<Written>, failed: bool, ghost others: seq<Snapshot>)
      modifies this`entries
      ensures IsListing(old(entries), others)
      ensures IsDir(old(entries), content.Name()) ==>
        failed && written.None? && entries == old(entries)
      ensures var name := content.Name();
        var stamp := NextStamp(NewestOther(others, name), round(clock));
        && (Blocked(old(entries), content, faults) ==> failed && written.None? && entries == old(entries))
        && (!Blocked(old(entries), content, faults) && !Stamping(faults) ==>
              failed && (written.Some? <==> faults.stats) &&
                entries == old(entries)[name := Entry(false, round(clock), content.payload)])
        && (!Blocked(old(entries), content, faults) && Stamping(faults) ==>
              (failed <==> !faults.restats) &&
              written == (
                if failed then None
                else Some(Written(name, round(stamp), name in old(entries), stamp != round(clock), 0))) &&
              entries == old(entries)[name := Entry(false, round(stamp), content.payload)])
    {
      var name := content.Name();
      var listed, unlisted := List(faults.lists);
      if unlisted {
        others := ListingExists(entries);
        return None, true, others;
      }
      others := listed;
      var refreshed := name in entries;
      if !faults.writes || (refreshed && entries[name].isDir) {
        return None, true, others;
      }
      entries := entries[name := Entry(false, round(clock), content.payload)];
      var newest := NewestOtherMTime(listed, name);
      written, failed := Stamp(name, newest, refreshed, faults);
    }

    /** The file just written, looked at, stamped past the newest other and looked at
        again. */
    method Stamp(name: string, newest: int, refreshed: bool, faults: Faults)
      returns (written: Option<Written>, failed: bool)
      requires name in entries
      modifies this`entries
      ensures var clock := old(entries)[name].mtime; var stamp := NextStamp(newest, clock);
        && (Stamping(faults) ==>
              (failed <==> !faults.restats) &&
              entries == old(entries)[name := old(entries)[name].(mtime := round(stamp))] &&
              written == if failed then None else Some(Written(name, round(stamp), refreshed, stamp != clock, 0)))
        && (!Stamping(faults) ==> failed && (written.Some? <==> faults.stats) && entries == old(entries))
    {
      if !faults.stats {
        return None, true;
      }
      var stamp := NextStamp(newest, entries[name].mtime);
      var restamped := faults.stamps && stamp != entries[name].mtime;
      if faults.stamps {
        entries := entries[name := entries[name].(mtime := round(stamp))];
        if !faults.restats {
          return None, true;
        }
      }
      written := Some(Written(name, entries[name].mtime, refreshed, restamped, 0));
      failed := !faults.stamps;
    }

    /** Every snapshot past the newest keep is removed, stopping at the first that
        will not go, at rank upto. */
    method Prune(keep: nat, readable: bool, removable: string -> bool)
      returns (removed: nat, failed: bool, ghost before: seq<Snapshot>, ghost upto: nat)
      modifies this`entries
      ensures !readable ==> failed && removed == 0 && entries == old(entries)
      ensures readable ==> IsListing(old(entries), before)
      ensures readable ==> PrunedTo(old(entries), before, entries, Kept(before, keep), upto)
      ensures readable ==> removed == upto - Kept(before, keep)
      ensures readable && failed ==> upto < |before| && !removable(before[upto].name)
      ensures !failed ==> upto == |before|
    {
      var snapshots, unlisted := List(readable);
      before := snapshots;
      if unlisted {
        return 0, true, before, 0;
      }
      var kept := Kept(snapshots, keep);
      var past;
      past, failed := RemovePast(snapshots, kept, removable);
      removed, upto := past - kept, past;
    }

    method RemovePast(snapshots: seq<Snapshot>, kept: nat, removable: string -> bool) returns (upto: nat, failed: bool)
      requires IsListing(entries, snapshots) && kept <= |snapshots|
      modifies this`entries
      ensures PrunedTo(old(entries), snapshots, entries, kept, upto)
      ensures failed ==> upto < |snapshots| && !removable(snapshots[upto].name)
      ensures !failed ==> upto == |snapshots|
    {
      ghost var was := entries;
      PrunesNone(entries, snapshots, kept, kept);
      upto := kept;
      while upto < |snapshots|
        invariant kept <= upto <= |snapshots|
        invariant PrunedTo(was, snapshots, entries, kept, upto)
      {
        if !removable(snapshots[upto].name) {
          return upto, true;
        }
        RemoveOne(snapshots, kept, upto, was);
        upto := upto + 1;
      }
      failed := false;
    }

    method RemoveOne(snapshots: seq<Snapshot>, kept: nat, i: nat, ghost was: Dir)
      requires i < |snapshots| && PrunedTo(was, snapshots, entries, kept, i)
      modifies this`entries
      ensures PrunedTo(was, snapshots, entries, kept, i + 1)
    {
      PrunesNext(was, snapshots, entries, kept, i);
      entries := entries - {snapshots[i].name};
    }

    /** The read's content created, then the set pruned to keep; a take that
        stamped nothing prunes nothing. */
    method Write(keep: nat, read: Option<Export>, clock: int, faults: Faults)
      returns (written: Option<Written>, failed: bool, ghost listing: seq<Snapshot>, ghost listing': seq<Snapshot>)
      requires Granular(round) && keep > 0
      modifies this`entries
      ensures IsListing(old(entries), listing) && IsListing(entries, listing')
      ensures Unread(old(entries), read, faults) ==>
        failed && written.None? && listing' == listing && entries == old(entries)
      ensures !Unread(old(entries), read, faults) && !Stamping(faults) ==>
        failed && entries == old(entries)[read.value.Name() := Entry(false, round(clock), read.value.payload)]
      ensures !Unread(old(entries), read, faults) && Stamping(faults) ==>
        Headed(listing, listing', keep, read.value.Name())
      ensures written.Some? <==>
        !Unread(old(entries), read, faults) && faults.stats && (faults.stamps ==> faults.restats)
      ensures !failed ==> read.Some? && Took(old(entries), listing, entries, listing', keep, read.value, round(clock))
      ensures Unhindered(old(entries), read, faults) ==> !failed
    {
      listing := ListingExists(entries);
      listing' := listing;
      if read.None? {
        return None, true, listing, listing';
      }
      ghost var others;
      written, failed, others := Create(read.value, clock, faults);
      ListingIsUnique(old(entries), listing, others);
      ghost var created := entries;
      if failed {
        listing' := ListingExists(entries);
        if Blocked(old(entries), read.value, faults) {
          ListingIsUnique(entries, listing, listing');
        } else if Stamping(faults) {
          CreatedHeads(old(entries), listing, entries, listing', keep, read.value, round(clock), round);
        }
        return;
      }
      ghost var full, upto;
      var pruned;
      pruned, failed, full, upto := Prune(keep, faults.relists, faults.removable);
      if !faults.relists {
        listing' := ListingExists(entries);
        CreatedHeads(old(entries), listing, entries, listing', keep, read.value, round(clock), round);
        return;
      }
      if failed {
        ListsSnapshots(created, full, upto);
      }
      listing' := Skip(full, Kept(full, keep), upto);
      written := Some(written.value.(pruned := pruned));
      CreatedThenPruned(old(entries), listing, created, full, entries, listing', keep, upto, read.value, round(clock),
        round);
    }

    /** Residue first, before the write that needs the room: one take under the
        set's lock. Residue that will not go is reported and costs the write
        nothing; unwritten is whether the write itself fell short. */
    method Take(keep: int, read: Option<Export>, clock: int, faults: Faults)
      returns (taken: Option<Taken>, failed: bool, ghost unwritten: bool, ghost listing: seq<Snapshot>,
        ghost listing': seq<Snapshot>)
      requires Granular(round)
      modifies this`entries
      ensures IsListing(old(entries), listing) && IsListing(entries, listing')
      ensures taken.Some? <==> keep > 0
      ensures taken.None? ==> failed && entries == old(entries)
      ensures taken.Some? && faults.residues ==> taken.value.residueRemoved == |Going(old(entries), faults.removable)|
      ensures taken.Some? && faults.residues ==>
        taken.value.residueStuck == |Residue(old(entries)) - Going(old(entries), faults.removable)|
      ensures taken.Some? && !faults.residues ==> taken.value.residueRemoved == taken.value.residueStuck == 0
      ensures taken.Some? ==> (failed <==> !faults.residues || taken.value.residueStuck > 0 || unwritten)
      ensures taken.Some? && read.Some? && IsDir(old(entries), read.value.Name()) ==>
        unwritten && taken.value.written.None? && listing' == listing && entries == Reclaimed(old(entries), faults)
      ensures taken.Some? && Unread(old(entries), read, faults) ==>
        unwritten && taken.value.written.None? && listing' == listing && entries == Reclaimed(old(entries), faults)
      ensures taken.Some? && !Unread(old(entries), read, faults) && !Stamping(faults) ==>
        unwritten &&
          entries ==
            Reclaimed(old(entries), faults)[read.value.Name() := Entry(false, round(clock), read.value.payload)]
      ensures taken.Some? && !Unread(old(entries), read, faults) && Stamping(faults) ==>
        Headed(listing, listing', keep, read.value.Name())
      ensures taken.Some? && taken.value.written.Some? ==> !Unread(old(entries), read, faults) && faults.stats
      ensures taken.Some? && !unwritten ==>
        read.Some? && Took(old(entries), listing, entries, listing', keep, read.value, round(clock))
      ensures taken.Some? && Unhindered(old(entries), read, faults) ==> !unwritten
    {
      listing := ListingExists(entries);
      listing' := listing;
      if keep <= 0 {
        return None, true, true, listing, listing';
      }
      var removed, stuck, residueFailed := RemoveResidue(faults.residues, faults.removable);
      ghost var cleared := entries;
      ReclaimedListing(old(entries), listing, faults);
      ReclaimedUnread(old(entries), read, faults);
      var written;
      ghost var relisted;
      written, failed, relisted, listing' := Write(keep, read, clock, faults);
      unwritten := failed;
      ListingIsUnique(cleared, listing, relisted);
      taken := Some(Taken(removed, stuck, written));
      failed := failed || residueFailed;
      if !unwritten {
        ContentFromBefore(old(entries), cleared, entries, read.value);
      }
    }
  }

  /** What is left once the residue that could be read and removed is gone. */
  ghost function Reclaimed(dir: Dir, faults: Faults): Dir {
    if faults.residues then dir - Going(dir, faults.removable) else dir
  }

  /** The write stops short of its rename: nothing can be listed or written, or a
      directory stands under the name. */
  predicate Blocked(dir: Dir, content: Export, faults: Faults) {
    !faults.lists || !faults.writes || (content.Name() in dir && dir[content.Name()].isDir)
  }

  predicate Unread(dir: Dir, read: Option<Export>, faults: Faults) { read.None? || Blocked(dir, read.value, faults) }

  /** A file that is renamed is also stamped. */
  predicate Stamping(faults: Faults) { faults.stats && faults.stamps }

  lemma ReclaimedListing(dir: Dir, listing: seq<Snapshot>, faults: Faults)
    requires IsListing(dir, listing)
    ensures IsListing(Reclaimed(dir, faults), listing)
  {
    if faults.residues {
      Cleared(dir, listing, Going(dir, faults.removable));
    }
  }

  /** A snapshot's name is never residue, so what blocks a write is untouched. */
  lemma ReclaimedUnread(dir: Dir, read: Option<Export>, faults: Faults)
    ensures Unread(Reclaimed(dir, faults), read, faults) <==> Unread(dir, read, faults)
    ensures Unhindered(dir, read, faults) ==> Unhindered(Reclaimed(dir, faults), read, faults)
  {
    if read.Some? {
      NameIsSnapshot(read.value);
      SnapshotIsNoTemp(read.value.Name());
    }
  }

  lemma CreatedHeads(
    before: Dir, listing: seq<Snapshot>, created: Dir, full: seq<Snapshot>, keep: nat, content: Export, written: int,
    round: int -> int)
    requires Granular(round) && keep > 0 && IsListing(before, listing) && IsListing(created, full)
    requires var stamp := NextStamp(NewestOther(listing, content.Name()), written);
      created == before[content.Name() := Entry(false, round(stamp), content.payload)]
    ensures Headed(listing, full, keep, content.Name())
  {
    CreatedListing(before, listing, created, full, content, written, round);
  }

  /** Nothing stands in the write's way: it has content, and every call it makes
      succeeds. */
  ghost predicate Unhindered(dir: Dir, read: Option<Export>, faults: Faults) {
    !Unread(dir, read, faults) && Stamping(faults) && faults.restats && faults.relists &&
    forall name :: IsSnapshotName(name) ==> faults.removable(name)
  }

  /** Whatever became of the prune, the take's own name leads the listing, and
      the newest keep are its name and the newest of the rest. */
  ghost predicate Headed(listing: seq<Snapshot>, listing': seq<Snapshot>, keep: int, name: string) {
    keep > 0 && listing' != [] && listing'[0].name == name &&
    FirstOf(listing', keep) == FirstOf([listing'[0]] + DropName(listing, name), keep)
  }

  /** Removing residue leaves the listing as it was. */
  lemma {:induction false} Cleared(dir: Dir, listing: seq<Snapshot>, gone: set<string>)
    requires IsListing(dir, listing) && forall name :: name in gone ==> TempTarget(name).Some?
    ensures IsListing(dir - gone, listing)
    decreases gone
  {
    if gone == {} {
      assert dir - gone == dir;
    } else {
      var name :| name in gone;
      TempIsNoSnapshot(name);
      UnlistedIsInvisible(dir, name, listing);
      Cleared(dir - {name}, listing, gone - {name});
      assert dir - {name} - (gone - {name}) == dir - gone;
    }
  }

  lemma ReadOne(read: Dir, name: string, entry: Entry, snapshots: seq<Snapshot>)
    requires name !in read && multiset(snapshots) == multiset(SnapshotsOf(read))
    ensures var after := read[name := entry];
      multiset(SnapshotsOf(after)) ==
        multiset(snapshots + if entry.isDir || !IsSnapshotName(name) then [] else [Snapshot(name, entry.mtime)])
  {
    var after := read[name := entry];
    var added := if entry.isDir || !IsSnapshotName(name) then [] else [Snapshot(name, entry.mtime)];
    forall s: Snapshot ensures multiset(SnapshotsOf(after))[s] == multiset(snapshots + added)[s] {
      SnapshotIn(read, s);
      SnapshotIn(after, s);
      assert multiset(snapshots)[s] == multiset(SnapshotsOf(read))[s];
    }
  }

  lemma CreatedListing(
    before: Dir, listing: seq<Snapshot>, created: Dir, full: seq<Snapshot>, content: Export, written: int,
    round: int -> int)
    requires Granular(round) && IsListing(before, listing) && IsListing(created, full)
    requires var stamp := NextStamp(NewestOther(listing, content.Name()), written);
      created == before[content.Name() := Entry(false, round(stamp), content.payload)]
    ensures var stamp := NextStamp(NewestOther(listing, content.Name()), written);
      full == [Snapshot(content.Name(), round(stamp))] + DropName(listing, content.Name())
    ensures full[0].created <= Max(written, NewestOther(listing, content.Name()) + ORDER_STEP)
  {
    var name := content.Name();
    var stamp := NextStamp(NewestOther(listing, name), written);
    NameIsSnapshot(content);
    StampIsNewest(listing, name, written, round);
    WrittenFirst(before, listing, name, Entry(false, round(stamp), content.payload));
    ListingIsUnique(created, full, [Snapshot(name, round(stamp))] + DropName(listing, name));
  }

  lemma KeptHead(listing: seq<Snapshot>, full: seq<Snapshot>, left: seq<Snapshot>, keep: nat, upto: nat, name: string)
    requires keep > 0 && full != [] && full[0].name == name && full == [full[0]] + DropName(listing, name)
    requires Kept(full, keep) <= upto <= |full| && left == Skip(full, Kept(full, keep), upto)
    ensures Headed(listing, left, keep, name)
  {
    if keep < |full| {
      assert left[..keep] == full[..keep];
    } else {
      assert left == full;
    }
  }

  lemma FirstNames(snapshots: seq<Snapshot>, keep: nat)
    ensures Names(FirstOf(snapshots, keep)) == FirstOf(Names(snapshots), keep)
  {
  }

  lemma TookItContent(before: Dir, created: Dir, after: Dir, left: seq<Snapshot>, content: Export)
    requires content.Name() in created && created[content.Name()].payload == content.payload
    requires created == before[content.Name() := created[content.Name()]]
    requires Pruned(created, after) && IsListing(after, left) && left != [] && left[0].name == content.Name()
    ensures TookContent(before, after, content)
  {
    InListing(after, left, left[0]);
  }

  lemma SkipAll(full: seq<Snapshot>, keep: nat)
    requires keep > 0 && full != []
    ensures var left := Skip(full, Kept(full, keep), |full|);
      left == FirstOf(full, keep) && left != [] && left[0] == full[0]
  {
  }

  /** full is the listing once content is put and stamped, before any prune. */
  ghost predicate Stamped(listing: seq<Snapshot>, full: seq<Snapshot>, name: string, written: int) {
    full != [] && full[0].name == name && full == [full[0]] + DropName(listing, name) &&
    full[0].created <= Max(written, NewestOther(listing, name) + ORDER_STEP)
  }

  lemma TookIt(
    before: Dir, listing: seq<Snapshot>, created: Dir, full: seq<Snapshot>, after: Dir, left: seq<Snapshot>, keep: nat,
    content: Export, written: int)
    requires keep > 0 && IsListing(before, listing) && IsListing(after, left) && Pruned(created, after)
    requires Stamped(listing, full, content.Name(), written) && left == Skip(full, Kept(full, keep), |full|)
    requires created == before[content.Name() := Entry(false, full[0].created, content.payload)]
    ensures Took(before, listing, after, left, keep, content, written)
  {
    SkipAll(full, keep);
    TookItNames(listing, full, left, keep, content.Name(), written);
    TookItContent(before, created, after, left, content);
  }

  lemma CreatedThenPruned(
    before: Dir, listing: seq<Snapshot>, created: Dir, full: seq<Snapshot>, after: Dir, left: seq<Snapshot>, keep: nat,
    upto: nat,
    content: Export, written: int, round: int -> int)
    requires Granular(round) && keep > 0 && IsListing(before, listing) && IsListing(created, full) &&
      IsListing(after, left) && Pruned(created, after)
    requires var stamp := NextStamp(NewestOther(listing, content.Name()), written);
      created == before[content.Name() := Entry(false, round(stamp), content.payload)]
    requires Kept(full, keep) <= upto <= |full| && left == Skip(full, Kept(full, keep), upto)
    ensures Headed(listing, left, keep, content.Name())
    ensures upto == |full| ==> Took(before, listing, after, left, keep, content, written)
  {
    CreatedListing(before, listing, created, full, content, written, round);
    KeptHead(listing, full, left, keep, upto, content.Name());
    if upto == |full| {
      TookIt(before, listing, created, full, after, left, keep, content, written);
    }
  }

  lemma TookItNames(
    listing: seq<Snapshot>, full: seq<Snapshot>, left: seq<Snapshot>, keep: nat, name: string, written: int)
    requires keep > 0 && Stamped(listing, full, name, written) && left == FirstOf(full, keep)
    ensures TookNames(listing, left, keep, name, written)
  {
    FirstNames(full, keep);
    DropNameNames(listing, name);
    HeadNames(full[0], DropName(listing, name));
    forall s | s in left && s != left[0] ensures s in listing && s.name != name {
      OneOfTheRest(full[0], DropName(listing, name), keep, s);
      DropNameCounts(listing, name, s);
    }
  }

  lemma HeadNames(head: Snapshot, rest: seq<Snapshot>)
    ensures Names([head] + rest) == [head.name] + Names(rest)
  {
  }

  lemma OneOfTheRest(head: Snapshot, rest: seq<Snapshot>, keep: nat, s: Snapshot)
    requires s in FirstOf([head] + rest, keep) && s != head
    ensures s in rest
  {
  }

  lemma ContentFromBefore(before: Dir, cleared: Dir, after: Dir, content: Export)
    requires TookContent(cleared, after, content)
    requires forall name :: name in cleared ==> name in before && cleared[name] == before[name]
    requires forall name :: name in before && !IsResidue(before, name) ==> name in cleared
    ensures TookContent(before, after, content)
  {
  }
}
