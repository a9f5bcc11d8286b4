/**
 The private directory: atomic replacement of one record, and the journalled replacement of a
 record that heads, guards and the installation manifest share.
 */
module State {
  import opened Wrappers
  import opened Records

  /** Where one replacement is interrupted, if anywhere. The rename is the point of effect. */
  datatype Fault = NoFault | FailBeforeRename | StopBeforeRename | FailDirectorySync | StopAfterRename

  /** Everything a journalled replacement can leave behind, by how it ended. */
  ghost predicate Rewrote(s: World, t: World, unresolved: Write, record: Write, resolved: Write, r: Res<()>) {
    var begun := After(s, unresolved);
    var written := After(begun, record);
    var closed := After(written, resolved);
    var restored := After(closed, unresolved);
    match r
    case Success(_) => t == closed
    case Failure(IoFailed) => t == s || t == begun || t == written
    case Failure(DurabilityUncertain) => t == begun || t == written || t == closed || t == restored
    case Failure(Stopped) => t == s || t == begun || t == written || t == closed || t == restored
    case _ => false
  }

  class PrivateDirectory {
    var disk: Disk
    ghost var hist: History
    ghost var faults: nat  // how many replacements and outputs have failed or been stopped

    constructor ()
      ensures Now() == FRESH_WORLD
    {
      disk := EMPTY_DISK;
      hist := FRESH_WORLD.hist;
      faults := 0;
    }

    ghost function Now(): World
      reads this
    {
      World(disk, hist)
    }

    /** Replace one record through a temporary file; any fault may happen at any call. */
    method Replace(w: Write) returns (r: Res<()>)
      modifies this
      ensures r.Success? || r.error == IoFailed || r.error == DurabilityUncertain || r.error == Stopped
      ensures r.Success? ==> Now() == After(old(Now()), w)
      ensures r == Failure(DurabilityUncertain) ==> Now() == After(old(Now()), w)
      ensures r == Failure(IoFailed) ==> Now() == old(Now())
      ensures r == Failure(Stopped) ==> Now() == old(Now()) || Now() == After(old(Now()), w)
      ensures faults == old(faults) + if r.Success? then 0 else 1
    {
      var fault: Fault := *;
      faults := faults + if fault == NoFault then 0 else 1;
      // create, write, flush and sync the temporary file, then rename it
      if fault == FailBeforeRename {
        return Failure(IoFailed);
      }
      if fault == StopBeforeRename {
        return Failure(Stopped);
      }
      hist := Noted(Now(), w);
      disk := Apply(disk, w);
      // sync the directory
      if fault == FailDirectorySync {
        return Failure(DurabilityUncertain);
      }
      if fault == StopAfterRename {
        return Failure(Stopped);
      }
      return Success(());
    }

    /** Write the resolved journal; when its durability is uncertain, try to restore the unresolved one. */
    method ResolveJournal(resolved: Write, unresolved: Write) returns (r: Res<()>)
      modifies this
      ensures r.Success? || r.error == IoFailed || r.error == DurabilityUncertain || r.error == Stopped
      ensures r.Success? ==> Now() == After(old(Now()), resolved)
      ensures r == Failure(IoFailed) ==> Now() == old(Now())
      ensures r == Failure(DurabilityUncertain) ==>
                Now() == After(old(Now()), resolved) || Now() == After(After(old(Now()), resolved), unresolved)
      ensures r == Failure(Stopped) ==>
                || Now() == old(Now())
                || Now() == After(old(Now()), resolved)
                || Now() == After(After(old(Now()), resolved), unresolved)
      ensures old(faults) <= faults && (r.Success? <==> faults == old(faults))
    {
      r := Replace(resolved);
      if r == Failure(DurabilityUncertain) {
        var restored := Replace(unresolved);
        if restored == Failure(Stopped) {
          return restored;
        }
      }
    }

    /** Write "journal unresolved, record, journal resolved", stopping at the first error. */
    method Rewrite(unresolved: Write, record: Write, resolved: Write) returns (r: Res<()>)
      modifies this
      ensures Rewrote(old(Now()), Now(), unresolved, record, resolved, r)
      ensures old(faults) <= faults && (r.Success? <==> faults == old(faults))
    {
      var _ :- Replace(unresolved);
      var _ :- Replace(record);
      r := ResolveJournal(resolved, unresolved);
    }
  }
}
