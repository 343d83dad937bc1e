/**
 The state file (atspi/persistence.py) over a file system that can lose power at any point.

 A directory entry points to a file; what the running process sees and what survives a power
 loss can differ, in the entry (until the directory is flushed) and in the contents of the
 file it points to (until the file is flushed). A file lost halfway is not valid JSON.
 */
module Persistence {
  import opened Prelude
  import opened Store

  /** The bytes of a file: a saved state, or something that does not parse as one. */
  datatype Contents = Readable(state: Persisted) | Unreadable

  datatype File = File(contents: Contents, flushed: bool)

  /** The entry as the process sees it, the entry as the disk has it, and the temporary file. */
  datatype Disk = Disk(entry: Option<File>, durable: Option<File>, temp: Option<File>)

  const EMPTY_DISK := Disk(None, None, None)

  /** The four steps of a save, in order: write the temporary file, flush it, rename it over
      the target, flush the directory. */
  function SaveStep(d: Disk, p: Persisted, k: nat): Disk {
    if k == 0 then d.(temp := Some(File(Readable(p), false)))
    else if k == 1 then (if d.temp.Some? then d.(temp := Some(d.temp.value.(flushed := true))) else d)
    else if k == 2 then (if d.temp.Some? then d.(entry := d.temp, temp := None) else d)
    else if k == 3 then d.(durable := d.entry)
    else d
  }

  /** The disk after the first `n` steps of a save. */
  function SaveSteps(d: Disk, p: Persisted, n: nat): Disk {
    if n == 0 then d else SaveStep(SaveSteps(d, p, n - 1), p, n - 1)
  }

  /** What `load` makes of what it reads: zeroes of a missing file, and of one that does not
      parse. */
  function LoadEntry(f: Option<File>): Persisted {
    if f.None? || f.value.contents.Unreadable? then ZEROES else f.value.contents.state
  }

  /** The file that an entry leads to after a power loss: an unflushed one may come back torn. */
  predicate Survives(f: Option<File>, found: Option<File>) {
    found == f || (f.Some? && !f.value.flushed && found == Some(File(Unreadable, true)))
  }

  /** A reader finds `p` after a power loss: one of the two entries survives. */
  ghost predicate MayReload(d: Disk, p: Persisted) {
    exists found :: (Survives(d.entry, found) || Survives(d.durable, found)) && p == LoadEntry(found)
  }

  /** After a power loss only what was found is there. */
  function AfterPowerLoss(p: Persisted): Disk {
    Disk(Some(File(Readable(p), true)), Some(File(Readable(p), true)), None)
  }

  /** What is on disk is what was saved last, in full, whatever happens next. */
  ghost predicate Settled(d: Disk, p: Persisted) {
    LoadEntry(d.entry) == p && LoadEntry(d.durable) == p
    && (d.entry.Some? ==> d.entry.value.flushed) && (d.durable.Some? ==> d.durable.value.flushed)
  }

  lemma EntriesReload(d: Disk)
    ensures MayReload(d, LoadEntry(d.entry)) && MayReload(d, LoadEntry(d.durable))
  {
    assert Survives(d.entry, d.entry) && Survives(d.durable, d.durable);
  }

  /** Atomicity: if power is lost after any number of steps of a save, a reader finds the old
      state or the new one, never anything else; before the rename it is the old one, and once
      the directory has been flushed it is the new one. */
  lemma SaveIsAtomic(d: Disk, old_: Persisted, p: Persisted, n: nat, q: Persisted)
    requires Settled(d, old_) && n <= 4
    ensures var after := SaveSteps(d, p, n);
            && (MayReload(after, q) ==> q == old_ || q == p)
            && (n <= 2 && MayReload(after, q) ==> q == old_)
            && (n == 3 ==> MayReload(after, old_) && MayReload(after, p))
            && (n == 4 ==> Settled(after, p) && (MayReload(after, q) ==> q == p))
  {
    assert SaveSteps(d, p, 0) == d;
    var d1 := SaveSteps(d, p, 1);
    var d2 := SaveSteps(d, p, 2);
    var d3 := SaveSteps(d, p, 3);
    var d4 := SaveSteps(d, p, 4);
    assert d1 == SaveStep(d, p, 0) && d2 == SaveStep(d1, p, 1) && d3 == SaveStep(d2, p, 2) && d4 == SaveStep(d3, p, 3);
    EntriesReload(d3);
  }

  lemma {:induction false} SaveEnds(d: Disk, p: Persisted, n: nat)
    requires n >= 4
    ensures SaveSteps(d, p, n) == SaveSteps(d, p, 4)
  {
    if n > 4 {
      SaveEnds(d, p, n - 1);
    }
  }

  /** What a save adds, whatever was on the disk before: until the rename nothing, in between its
      own state, and once the directory has been flushed nothing else is left. */
  lemma SaveAdds(d: Disk, p: Persisted, n: nat, q: Persisted)
    ensures var after := SaveSteps(d, p, n);
            && (n <= 2 ==> after.entry == d.entry && after.durable == d.durable)
            && (n <= 2 ==> (MayReload(after, q) <==> MayReload(d, q)))
            && (n == 3 ==> LoadEntry(after.entry) == p && after.durable == d.durable)
            && (n == 3 && MayReload(after, q) ==> MayReload(d, q) || q == p)
            && (n >= 4 ==> LoadEntry(after.entry) == p && (MayReload(after, q) <==> q == p))
  {
    assert SaveSteps(d, p, 0) == d;
    var d1 := SaveSteps(d, p, 1);
    var d2 := SaveSteps(d, p, 2);
    var d3 := SaveSteps(d, p, 3);
    var d4 := SaveSteps(d, p, 4);
    assert d1 == SaveStep(d, p, 0) && d2 == SaveStep(d1, p, 1) && d3 == SaveStep(d2, p, 2) && d4 == SaveStep(d3, p, 3);
    EntriesReload(d4);
    if n >= 4 {
      SaveEnds(d, p, n);
    }
  }

  class StateFile {
    var disk: Disk

    constructor (disk: Disk)
      ensures this.disk == disk
    {
      this.disk := disk;
    }

    /** `fails` says whether the operating system refuses to open or read the file. */
    method Load(fails: bool) returns (p: Persisted)
      ensures p == if fails then ZEROES else LoadEntry(disk.entry)
      ensures disk.entry.None? || disk.entry.value.contents.Unreadable? ==> p == ZEROES
    {
      if disk.entry.None? || fails {
        return ZEROES;
      }
      match disk.entry.value.contents
      case Readable(state) => p := state;
      case Unreadable => p := ZEROES;
    }

    /** Runs a save to its end, or until the process dies or power is lost: the first `upTo` of its
        four steps. */
    method Save(p: Persisted, upTo: nat)
      requires upTo <= 4
      modifies this
      ensures disk == SaveSteps(old(disk), p, upTo)
    {
      if upTo == 0 { return; }
      disk := disk.(temp := Some(File(Readable(p), false)));
      assert SaveSteps(old(disk), p, 1) == SaveStep(SaveSteps(old(disk), p, 0), p, 0);
      if upTo == 1 { return; }
      disk := disk.(temp := Some(disk.temp.value.(flushed := true)));
      assert SaveSteps(old(disk), p, 2) == SaveStep(SaveSteps(old(disk), p, 1), p, 1);
      if upTo == 2 { return; }
      disk := disk.(entry := disk.temp, temp := None);
      assert SaveSteps(old(disk), p, 3) == SaveStep(SaveSteps(old(disk), p, 2), p, 2);
      if upTo == 3 { return; }
      disk := disk.(durable := disk.entry);
    }
  }
}
