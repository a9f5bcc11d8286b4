/** Exclusive checks of a published generation: claim, fail, finish. */
module Checks {
  import opened Wrappers
  import opened Records
  import opened Reading
  import opened Protocol
  import opened Invariants
  import opened Preservation
  import opened State
  import opened Registers
  import opened Installation
  import opened Safety
  import opened Sessions
  import opened Audit
  import opened Publishing
  import opened Stranding

  // ---- guard moves ---------------------------------------------------------------------

  function VoidGuard(g: Guard): Guard {
    g.(state := Void, attempt := None)
  }

  method StoreVoidGuard(dir: PrivateDirectory, k: Key, head: Head, guard: Guard) returns (r: Res<()>)
    requires Inv(dir.Now()) && ReadHead(dir.disk, k) == Success(Some(head)) &&
               ReadGuard(dir.disk, k, head) == Success(guard)
    modifies dir
    ensures old(dir.faults) <= dir.faults && (r.Success? <==> dir.faults == old(dir.faults))
    ensures Progress(old(dir.Now()), dir.Now(), k) && OnlyGuard(old(dir.disk), dir.disk, k)
    ensures GuardRewrote(old(dir.Now()), dir.Now(), k, VoidGuard(guard), r)
    ensures r.Success? ==> ReadGuard(dir.disk, k, head) == Success(VoidGuard(guard))
  {
    ghost var s := dir.Now();
    r := ReplaceGuard(dir, k, head, VoidGuard(guard));
    GuardIsFailStop(s, dir.Now(), k, head, VoidGuard(guard), r);
    GuardIssues(s, dir.Now(), k, VoidGuard(guard), r);
    GuardProgress(s, dir.Now(), k);
  }

  /** The guard was voided first, and if that succeeded the head. */
  ghost predicate BothVoided(s: World, t: World, k: Key, head: Head, guard: Guard, r: Res<()>) {
    exists u, q :: GuardRewrote(s, u, k, VoidGuard(guard), q)
                   && if q.Success? then HeadRewrote(u, t, k, Voided(head), r) else t == u && r == q
  }

  /** Void the guard, then the head it guards. */
  method VoidBoth(dir: PrivateDirectory, k: Key, head: Head, guard: Guard) returns (r: Res<()>)
    requires Inv(dir.Now()) && ReadHead(dir.disk, k) == Success(Some(head)) &&
               ReadGuard(dir.disk, k, head) == Success(guard)
    modifies dir
    ensures old(dir.faults) <= dir.faults && (r.Success? <==> dir.faults == old(dir.faults))
    ensures StrandedKept(old(dir.disk), dir.disk)
    ensures Progress(old(dir.Now()), dir.Now(), k)
    ensures r.Success? ==>
              ReadHead(dir.disk, k) == Success(Some(Voided(head))) &&
                ReadGuard(dir.disk, k, Voided(head)) == Success(VoidGuard(guard))
    ensures BothVoided(old(dir.Now()), dir.Now(), k, head, guard, r)
  {
    ghost var s := dir.Now();
    r := StoreVoidGuard(dir, k, head, guard);
    ghost var t := dir.Now();
    ProgressKeepsStranded(s, t, k);
    if r.Failure? {
      return;
    }
    assert KeyInv(t, k);
    r := CommitHead(dir, k, Voided(head));
    ProgressOn(s, t, dir.Now(), k);
    ProgressKeepsStranded(s, dir.Now(), k);
  }

  // ---- claim ---------------------------------------------------------------------------

  function CheckingGuard(g: Guard, attempt: Uuid): Guard {
    g.(state := Checking, attempt := Some(attempt))
  }

  /** Claiming a free guard of an Emitted head is a licensed step. */
  lemma CheckingIsLicensed(s: World, k: Key, head: Head, guard: Guard, attempt: Uuid)
    requires Inv(s) && Unused(s, attempt)
    requires ReadHead(s.disk, k) == Success(Some(head)) && head.state == Emitted
    requires ReadGuard(s.disk, k, head) == Success(guard) && (guard.state == Idle || guard.state == Completed)
    ensures MayRewriteGuard(s, k, CheckingGuard(guard, attempt)) && ValidGuard(head, CheckingGuard(guard, attempt))
  {
  }

  method StoreChecking(dir: PrivateDirectory, k: Key, head: Head, guard: Guard, attempt: Uuid) returns (r: Res<()>)
    requires Inv(dir.Now()) && Unused(dir.Now(), attempt)
    requires ReadHead(dir.disk, k) == Success(Some(head)) && head.state == Emitted
    requires ReadGuard(dir.disk, k, head) == Success(guard) && (guard.state == Idle || guard.state == Completed)
    modifies dir
    ensures old(dir.faults) <= dir.faults && (r.Success? <==> dir.faults == old(dir.faults))
    ensures StrandedKept(old(dir.disk), dir.disk)
    ensures Reaches(old(dir.Now()), dir.Now()) && Inv(dir.Now()) && Elsewhere(old(dir.disk), dir.disk, k)
    ensures OnlyGuard(old(dir.disk), dir.disk, k)
    ensures dir.hist.issued <= old(dir.hist.issued) + {attempt}
    ensures GuardRewrote(old(dir.Now()), dir.Now(), k, CheckingGuard(guard, attempt), r)
    ensures r.Success? ==> ReadGuard(dir.disk, k, head) == Success(CheckingGuard(guard, attempt))
  {
    ghost var s := dir.Now();
    CheckingIsLicensed(s, k, head, guard, attempt);
    r := ReplaceGuard(dir, k, head, CheckingGuard(guard, attempt));
    GuardIsFailStop(s, dir.Now(), k, head, CheckingGuard(guard, attempt), r);
    GuardIssues(s, dir.Now(), k, CheckingGuard(guard, attempt), r);
    OtherRecordsKeep(s.disk, dir.disk);
  }

  /** What a claim grants: the snapshot it is for, and a Checking guard that keeps others from reading it. */
  ghost predicate Granted(s: World, t: World, active: ActiveInstallation, k: Key, cwd: Cwd, parent: Option<ParentProof>,
                          attempt: Uuid, claim: ClaimedCheck) {
    && Claimable(s.disk, active, k, cwd, parent)
    && (var snapshot := ReadSnapshot(s.disk, active, k, cwd).value;
        claim == ClaimedCheck(k, active.epoch, active.nonce, s.disk.heads[k].sequence, snapshot.generation, attempt,
                              snapshot.pack, snapshot.binding, cwd, parent))
    && ClaimedBy(t.disk, active, k, attempt) && OnlyGuard(s.disk, t.disk, k)
    && ReadGuard(t.disk, k, s.disk.heads[k]).Success?
    && ReadSnapshot(t.disk, active, k, cwd).Failure?
  }

  /** Right after a granted claim the head is as it was, and a child still stands. */
  lemma GrantedStands(s: World, t: World, active: ActiveInstallation, k: Key, cwd: Cwd, parent: Option<ParentProof>,
                      attempt: Uuid, claim: ClaimedCheck)
    requires Granted(s, t, active, k, cwd, parent, attempt, claim)
    ensures ReadPresentHead(t.disk, k).Success? && ReadPresentHead(t.disk, k).value.sequence == claim.sequence
    ensures claim.key == k && claim.attempt == attempt && claim.epoch == active.epoch && claim.parent == parent
    ensures parent.Some? ==> ChildStands(t.disk, active, parent.value, k)
  {
    if parent.Some? {
      var proof := parent.value;
      ChildNeedsItsParent(s.disk, active, proof, k);
      assert SameAt(s.disk, t.disk, proof.lineage.parent);
      SameParent(s.disk, t.disk, active, proof);
    }
  }

  /** A claim that is granted and undisturbed can be finished. */
  lemma GrantedCanFinish(s: World, t: World, active: ActiveInstallation, cwd: Cwd, claim: ClaimedCheck)
    requires Granted(s, t, active, claim.key, cwd, claim.parent, claim.attempt, claim)
    ensures Usable(t.disk, active) && active.config.gate.Some?
    ensures FinishCheck(t.disk, active, claim).Success?
  {
    GrantedStands(s, t, active, claim.key, cwd, claim.parent, claim.attempt, claim);
    if claim.parent.Some? {
      ChildNeedsItsParent(t.disk, active, claim.parent.value, claim.key);
    }
  }

  /** The head was retired first; the error found is reported unless retiring failed. */
  ghost predicate RetiredFor(s: World, t: World, k: Key, nonce: Uuid, error: Error, r: Res<ClaimedCheck>) {
    exists q :: RetiredCurrent(s, t, k, nonce, q) && r == Failure(if q.Failure? then q.error else error)
  }

  /** Report an error after retiring the head it was found on. */
  method RetireAndFail(dir: PrivateDirectory, k: Key, nonce: Uuid, error: Error) returns (r: Res<ClaimedCheck>)
    requires Inv(dir.Now()) && Unused(dir.Now(), nonce)
    modifies dir
    ensures old(dir.faults) <= dir.faults
    ensures Issues(old(dir.Now()), dir.Now(), {nonce})
    ensures StrandedKept(old(dir.disk), dir.disk)
    ensures Reaches(old(dir.Now()), dir.Now()) && Inv(dir.Now())
    ensures RetiredFor(old(dir.Now()), dir.Now(), k, nonce, error, r)
  {
    var retired := RetireCurrentLocked(dir, k, nonce);
    if retired.Failure? {
      return Failure(retired.error);
    }
    return Failure(error);
  }

  /** The generation was voided because another check of it was in progress. */
  ghost predicate VoidedFor(s: World, t: World, k: Key, head: Head, guard: Guard, r: Res<ClaimedCheck>) {
    && Progress(s, t, k)
    && (exists q :: BothVoided(s, t, k, head, guard, q) &&
         r == Failure(if q.Failure? then q.error else SnapshotInvalid))
    && (r == Failure(SnapshotInvalid) ==>
          ReadHead(t.disk, k) == Success(Some(Voided(head))) &&
            ReadGuard(t.disk, k, Voided(head)) == Success(VoidGuard(guard)))
  }

  ghost predicate StoreFailedAt(s: World, u: World, t: World, k: Key, guard: Guard, attempt: Uuid, nonce: Uuid,
                                q: Res<()>, r: Res<ClaimedCheck>) {
    && q.Failure? && GuardRewrote(s, u, k, CheckingGuard(guard, attempt), q)
    && if q.error == Stopped then t == u && r == Failure(Stopped) else RetiredFor(u, t, k, nonce, q.error, r)
  }

  /** The Checking guard could not be stored, and unless the process stopped the head was retired for it. */
  ghost predicate StoreFailed(s: World, t: World, k: Key, guard: Guard, attempt: Uuid, nonce: Uuid,
                              r: Res<ClaimedCheck>) {
    exists u, q :: StoreFailedAt(s, u, t, k, guard, attempt, nonce, q, r)
  }

  /** What a refused claim leaves behind, by what it found. */
  ghost predicate Refused(s: World, t: World, active: ActiveInstallation, k: Key, cwd: Cwd, parent: Option<ParentProof>,
                          attempt: Uuid, nonce: Uuid, r: Res<ClaimedCheck>)
    requires r.Failure?
  {
    var d := s.disk;
    if active.config.gate.None? then r == Failure(ConfigInvalid) && t == s
    else if CheckedHead(d, active, k, parent).Failure? then r.error == CheckedHead(d, active, k, parent).error && t == s
    else if ReadHead(d, k).Failure? then
      exists p :: Poisoned(s, t, nonce, p) && r.error == if p.Failure? then p.error else ReadHead(d, k).error
    else if ReadHead(d, k).value.None? || !RightLineage(d.heads[k], parent) then r == Failure(SnapshotInvalid) && t == s
    else
      match ReadGuard(d, k, d.heads[k])
      case Failure(e) => RetiredFor(s, t, k, nonce, e, r)
      case Success(guard) =>
        if guard.state == Checking then
          VoidedFor(s, t, k, d.heads[k], guard, r)
        else if guard.state == Void then r == Failure(SnapshotInvalid) && t == s
        else if ReadSnapshot(d, active, k, cwd).Failure? then
          RetiredFor(s, t, k, nonce, ReadSnapshot(d, active, k, cwd).error, r)
        else if parent.Some? && ReadSnapshot(d, active, k, cwd).value.pack != parent.value.pack then
          RetiredFor(s, t, k, nonce, SnapshotInvalid, r)
        else StoreFailed(s, t, k, guard, attempt, nonce, r)
  }

  /** Refuse a second check of a generation, and end the first one. */
  method VoidAndFail(dir: PrivateDirectory, k: Key, head: Head, guard: Guard) returns (r: Res<ClaimedCheck>)
    requires Inv(dir.Now()) && ReadHead(dir.disk, k) == Success(Some(head)) &&
               ReadGuard(dir.disk, k, head) == Success(guard)
    modifies dir
    ensures old(dir.faults) <= dir.faults
    ensures StrandedKept(old(dir.disk), dir.disk)
    ensures r.Failure? && Progress(old(dir.Now()), dir.Now(), k)
    ensures VoidedFor(old(dir.Now()), dir.Now(), k, head, guard, r)
  {
    var voided := VoidBoth(dir, k, head, guard);
    return Failure(if voided.Failure? then voided.error else SnapshotInvalid);
  }

  /** A Checking guard that reads back grants the claim. */
  lemma ClaimIsGranted(s: World, t: World, active: ActiveInstallation, cwd: Cwd, claim: ClaimedCheck, guard: Guard)
    requires Claimable(s.disk, active, claim.key, cwd, claim.parent) && OnlyGuard(s.disk, t.disk, claim.key)
    requires var head := s.disk.heads[claim.key];
             var snapshot := ReadSnapshot(s.disk, active, claim.key, cwd).value;
             && claim == ClaimedCheck(claim.key, head.epoch, head.nonce, head.sequence, head.generation, claim.attempt,
                                      snapshot.pack, snapshot.binding, cwd, claim.parent)
             && ReadGuard(t.disk, claim.key, head) == Success(CheckingGuard(guard, claim.attempt))
    ensures Granted(s, t, active, claim.key, cwd, claim.parent, claim.attempt, claim)
  {
  }

  /** Store the Checking guard; if that fails, retire the head. */
  method StoreClaim(dir: PrivateDirectory, active: ActiveInstallation, k: Key, cwd: Cwd, parent: Option<ParentProof>,
                    head: Head, guard: Guard, snapshot: Snapshot, attempt: Uuid, nonce: Uuid)
    returns (r: Res<ClaimedCheck>)
    requires Inv(dir.Now()) && Unused(dir.Now(), attempt) && Unused(dir.Now(), nonce) && attempt != nonce
    requires Claimable(dir.disk, active, k, cwd, parent) && ReadSnapshot(dir.disk, active, k, cwd) == Success(snapshot)
    requires ReadHead(dir.disk, k) == Success(Some(head)) && ReadGuard(dir.disk, k, head) == Success(guard)
    modifies dir
    ensures old(dir.faults) <= dir.faults
    ensures r.Success? <==> dir.faults == old(dir.faults)
    ensures Issues(old(dir.Now()), dir.Now(), {attempt, nonce})
    ensures StrandedKept(old(dir.disk), dir.disk)
    ensures Reaches(old(dir.Now()), dir.Now())
    ensures if r.Success? then Granted(old(dir.Now()), dir.Now(), active, k, cwd, parent, attempt, r.value)
            else StoreFailed(old(dir.Now()), dir.Now(), k, guard, attempt, nonce, r)
  {
    ghost var s := dir.Now();
    var stored := StoreChecking(dir, k, head, guard, attempt);
    ghost var t := dir.Now();
    if stored.Failure? {
      if stored.error == Stopped {
        r := Failure(Stopped);
      } else {
        r := RetireAndFail(dir, k, nonce, stored.error);
        ReachesOn(s, t, dir.Now());
        KeptOn(s.disk, t.disk, dir.disk);
      }
      assert StoreFailedAt(s, t, dir.Now(), k, guard, attempt, nonce, stored, r);
      return;
    }
    var claim := ClaimedCheck(k, head.epoch, head.nonce, head.sequence, head.generation, attempt,
                              snapshot.pack, snapshot.binding, cwd, parent);
    ClaimIsGranted(s, t, active, cwd, claim, guard);
    return Success(claim);
  }

  /** The checks a claim makes in turn come to exactly what makes the generation claimable. */
  lemma ClaimChecksAreExact(d: Disk, active: ActiveInstallation, k: Key, cwd: Cwd, parent: Option<ParentProof>)
    requires Usable(d, active)
    ensures Claimable(d, active, k, cwd, parent) <==>
              && active.config.gate.Some? && CheckedHead(d, active, k, parent).Success?
              && ReadPresentHead(d, k).Success? && RightLineage(ReadPresentHead(d, k).value, parent)
              && ReadSnapshot(d, active, k, cwd).Success?
              && (parent.Some? ==> ReadSnapshot(d, active, k, cwd).value.pack == parent.value.pack)
    ensures active.config.gate.Some? && ReadSnapshot(d, active, k, cwd).Success? ==>
              && ReadGuard(d, k, ReadPresentHead(d, k).value).Success?
              && ReadGuard(d, k, ReadPresentHead(d, k).value).value.state in {Idle, Completed}
  {
  }

  method ClaimUnder(dir: PrivateDirectory, active: ActiveInstallation, k: Key, cwd: Cwd, parent: Option<ParentProof>,
                    attempt: Uuid, nonce: Uuid) returns (r: Res<ClaimedCheck>)
    requires Inv(dir.Now()) && Unused(dir.Now(), attempt) && Unused(dir.Now(), nonce) && attempt != nonce
    requires Usable(dir.disk, active)
    modifies dir
    ensures old(dir.faults) <= dir.faults
    ensures dir.faults == old(dir.faults) ==>
              (r.Success? <==> Claimable(old(dir.disk), active, k, cwd, parent))
    ensures Issues(old(dir.Now()), dir.Now(), {attempt, nonce})
    ensures StrandedKept(old(dir.disk), dir.disk)
    ensures Reaches(old(dir.Now()), dir.Now())
    ensures if r.Success? then Granted(old(dir.Now()), dir.Now(), active, k, cwd, parent, attempt, r.value)
            else Refused(old(dir.Now()), dir.Now(), active, k, cwd, parent, attempt, nonce, r)
  {
    ReachesSelf(dir.Now());
    ClaimChecksAreExact(dir.disk, active, k, cwd, parent);
    if active.config.gate.None? {
      return Failure(ConfigInvalid);
    }
    var _ :- CheckedHead(dir.disk, active, k, parent);
    var found := ReadHead(dir.disk, k);
    if found.Failure? {
      var poisoned := PoisonLocked(dir, nonce);
      return Failure(if poisoned.Failure? then poisoned.error else found.error);
    }
    if found.value.None? || !RightLineage(found.value.value, parent) {
      return Failure(SnapshotInvalid);
    }
    var head := found.value.value;
    var guarded := ReadGuard(dir.disk, k, head);
    if guarded.Failure? {
      r := RetireAndFail(dir, k, nonce, guarded.error);
      return;
    }
    var guard := guarded.value;
    if guard.state == Checking {
      r := VoidAndFail(dir, k, head, guard);
      return;
    }
    if guard.state != Idle && guard.state != Completed {
      return Failure(SnapshotInvalid);
    }
    var read := ReadSnapshot(dir.disk, active, k, cwd);
    if read.Failure? {
      r := RetireAndFail(dir, k, nonce, read.error);
      return;
    }
    if parent.Some? && read.value.pack != parent.value.pack {
      r := RetireAndFail(dir, k, nonce, SnapshotInvalid);
      return;
    }
    r := StoreClaim(dir, active, k, cwd, parent, head, guard, read.value, attempt, nonce);
  }

  /** Claim a fresh check of the current snapshot; a check found in progress voids the generation. */
  method ClaimHashCheck(dir: PrivateDirectory, k: Key, cwd: Cwd, parent: Option<ParentProof>,
                        loaded: Option<Config>, attempt: Uuid, nonce: Uuid) returns (r: Res<ClaimedCheck>)
    requires Inv(dir.Now()) && Unused(dir.Now(), attempt) && Unused(dir.Now(), nonce) && attempt != nonce
    modifies dir
    ensures old(dir.faults) <= dir.faults
    ensures forall active :: Usable(old(dir.disk), active) && loaded == Some(active.config) ==>
              (dir.faults == old(dir.faults) ==> (r.Success? <==> Claimable(old(dir.disk), active, k, cwd, parent)))
    ensures Issues(old(dir.Now()), dir.Now(), {attempt, nonce})
    ensures StrandedKept(old(dir.disk), dir.disk)
    ensures Reaches(old(dir.Now()), dir.Now())
    ensures forall active :: Usable(old(dir.disk), active) && loaded == Some(active.config) ==>
              if r.Success? then Granted(old(dir.Now()), dir.Now(), active, k, cwd, parent, attempt, r.value)
              else Refused(old(dir.Now()), dir.Now(), active, k, cwd, parent, attempt, nonce, r)
    ensures (forall active :: Usable(old(dir.disk), active) ==> loaded != Some(active.config)) ==>
              r.Failure? && ActiveRefused(old(dir.Now()), dir.Now(), loaded, nonce, r.error)
  {
    var active :- ActiveLocked(dir, loaded, nonce);
    r := ClaimUnder(dir, active, k, cwd, parent, attempt, nonce);
  }

  // ---- fail ----------------------------------------------------------------------------

  /** Void the generation if this very attempt still stands on it, checked or completed. */
  ghost predicate FailedAttempt(s: World, t: World, k: Key, generation: Uuid, attempt: Uuid, nonce: Uuid, r: Res<()>) {
    match ReadHead(s.disk, k)
    case Failure(e) =>
      exists p :: Poisoned(s, t, nonce, p) && r == Failure(if p.Failure? then p.error else e)
    case Success(None) => r == Failure(SnapshotInvalid) && t == s
    case Success(Some(head)) =>
      if head.generation != generation then r == Success(()) && t == s
      else
        match ReadGuard(s.disk, k, head)
        case Failure(e) =>
          exists q :: RetiredCurrent(s, t, k, nonce, q) && r == Failure(if q.Failure? then q.error else e)
        case Success(guard) =>
          if guard.attempt != Some(attempt) then r == Success(()) && t == s
          else
            && Progress(s, t, k) && BothVoided(s, t, k, head, guard, r)
            && (r.Success? ==>
                  && ReadHead(t.disk, k) == Success(Some(Voided(head)))
                  && ReadGuard(t.disk, k, Voided(head)) == Success(VoidGuard(guard)))
  }

  method FailHashAttempt(dir: PrivateDirectory, k: Key, generation: Uuid, attempt: Uuid, nonce: Uuid)
    returns (r: Res<()>)
    requires Inv(dir.Now()) && Unused(dir.Now(), nonce)
    modifies dir
    ensures old(dir.faults) <= dir.faults
    ensures dir.faults == old(dir.faults) ==>
              var found := ReadPresentHead(old(dir.disk), k);
              (r.Success? <==>
                 found.Success?
                 && (found.value.generation == generation ==> ReadGuard(old(dir.disk), k, found.value).Success?))
    ensures Issues(old(dir.Now()), dir.Now(), {nonce})
    ensures StrandedKept(old(dir.disk), dir.disk)
    ensures Reaches(old(dir.Now()), dir.Now())
    ensures FailedAttempt(old(dir.Now()), dir.Now(), k, generation, attempt, nonce, r)
  {
    ReachesSelf(dir.Now());
    var found := ReadHead(dir.disk, k);
    if found.Failure? {
      var poisoned := PoisonLocked(dir, nonce);
      return Failure(if poisoned.Failure? then poisoned.error else found.error);
    }
    if found.value.None? {
      return Failure(SnapshotInvalid);
    }
    var head := found.value.value;
    if head.generation != generation {
      return Success(());
    }
    var guarded := ReadGuard(dir.disk, k, head);
    if guarded.Failure? {
      var retired := RetireCurrentLocked(dir, k, nonce);
      return Failure(if retired.Failure? then retired.error else guarded.error);
    }
    var guard := guarded.value;
    if !(guard.state == Checking || guard.state == Completed) || guard.attempt != Some(attempt) {
      return Success(());
    }
    r := VoidBoth(dir, k, head, guard);
  }

  // ---- retirement ----------------------------------------------------------------------

  lemma ReadableHeadKeepsManifest(s: World, t: World, k: Key, generation: Uuid, attempt: Uuid, nonce: Uuid, r: Res<()>)
    requires ReadHead(s.disk, k).Success? && FailedAttempt(s, t, k, generation, attempt, nonce, r)
    ensures CleanManifest(t.disk) == CleanManifest(s.disk)
  {
    match ReadHead(s.disk, k).value
    case None =>
    case Some(head) =>
      if head.generation == generation {
        match ReadGuard(s.disk, k, head)
        case Failure(_) =>
          var q :| RetiredCurrent(s, t, k, nonce, q);
          RetiringKeepsManifest(s, t, k, nonce, q);
        case Success(guard) =>
      }
  }

  /**
   Failing an attempt does not ask whether the installation is still in service. A Retired anchor
   stays Retired, however the call ends, if the head of the key is readable or its epoch is the
   last one; otherwise a call whose writes succeed makes it Changing.
   */
  lemma RetiredStaysExactly(s: World, t: World, k: Key, generation: Uuid, attempt: Uuid, nonce: Uuid, r: Res<()>)
    requires CleanManifest(s.disk).Success? && CleanManifest(s.disk).value.lifecycle == Retired && nonce != NIL
    requires FailedAttempt(s, t, k, generation, attempt, nonce, r)
    ensures ReadHead(s.disk, k).Success? || CleanManifest(s.disk).value.epoch >= U64_MAX ==>
              CleanManifest(t.disk) == CleanManifest(s.disk)
    ensures r.Success? || !Faulted(r.error) ==>
              (CleanManifest(t.disk) == CleanManifest(s.disk)
               <==> ReadHead(s.disk, k).Success? || CleanManifest(s.disk).value.epoch >= U64_MAX)
    ensures CleanManifest(t.disk) != CleanManifest(s.disk) && (r.Success? || !Faulted(r.error)) ==>
              CleanManifest(t.disk).Success? && CleanManifest(t.disk).value.lifecycle == Changing
  {
    if ReadHead(s.disk, k).Success? {
      ReadableHeadKeepsManifest(s, t, k, generation, attempt, nonce, r);
    } else {
      var p :| Poisoned(s, t, nonce, p) && r == Failure(if p.Failure? then p.error else ReadHead(s.disk, k).error);
    }
  }

  // ---- finish --------------------------------------------------------------------------

  /** A finish that may record its evidence holds a claim that nothing has disturbed. */
  lemma FinishNeedsItsClaim(d: Disk, active: ActiveInstallation, claim: ClaimedCheck)
    requires Usable(d, active) && FinishCheck(d, active, claim).Success?
    ensures ClaimedBy(d, active, claim.key, claim.attempt)
    ensures ReadPresentHead(d, claim.key).value.sequence == claim.sequence
    ensures ReadPresentHead(d, claim.key).value.generation == claim.generation
    ensures claim.parent.Some? ==> ChildStands(d, active, claim.parent.value, claim.key)
  {
  }

  /**
   A finish that may record its evidence certifies the whole time since its claim was granted: the same head
   was Emitted, the same attempt was checked, and no refresh, retirement, failure or activation
   took effect; with a parent, the same holds for the parent's head.
   */
  lemma FinishMeansQuietSinceClaim(run: seq<World>, s: World, i: nat, m: nat, j: nat, a: ActiveInstallation,
                                   b: ActiveInstallation, claim: ClaimedCheck)
    requires Run(run) && i <= m <= j < |run|
    requires Granted(s, run[i], a, claim.key, claim.cwd, claim.parent, claim.attempt, claim)
    requires Usable(run[j].disk, b) && FinishCheck(run[j].disk, b, claim).Success?
    ensures CheckingBy(run[m].disk, claim.key, claim.attempt)
    ensures claim.key in run[m].disk.heads && run[m].disk.heads[claim.key] == run[i].disk.heads[claim.key]
    ensures claim.key in run[m].disk.journals
            && run[m].disk.journals[claim.key].sequence == run[i].disk.journals[claim.key].sequence
    ensures run[m].disk.manifest == run[i].disk.manifest
    ensures run[m].disk.activation.Some? && run[m].disk.activation.value.epoch == a.epoch
    ensures claim.parent.Some? ==>
              var parent := claim.parent.value.lineage.parent;
              && parent in run[m].disk.heads && run[m].disk.heads[parent] == run[i].disk.heads[parent]
  {
    GrantedStands(s, run[i], a, claim.key, claim.cwd, claim.parent, claim.attempt, claim);
    FinishNeedsItsClaim(run[j].disk, b, claim);
    ClaimWindowIsQuiet(run, i, m, j, claim.key, claim.attempt, a, b);
    if claim.parent.Some? {
      ParentWindowIsQuiet(run, i, m, j, claim.key, a, b, claim.parent.value);
    }
  }

  /** Nothing changes when a finish is refused, except that an unreadable head poisons the installation. */
  ghost predicate FinishRefused(s: World, t: World, active: ActiveInstallation, claim: ClaimedCheck, nonce: Uuid,
                                r: Res<()>) {
    var check := FinishCheck(s.disk, active, claim);
    && check.Failure?
    && if active.epoch == claim.epoch && active.nonce == claim.nonce &&
         CheckedHead(s.disk, active, claim.key, claim.parent).Success?
          && ReadHead(s.disk, claim.key).Failure?
       then exists p :: Poisoned(s, t, nonce, p) && r == Failure(if p.Failure? then p.error else check.error)
       else r == Failure(check.error) && t == s
  }

  /** A finish that fails after its checks touches the audit store and its own guard, never a head. */
  ghost predicate FinishFailed(s: World, t: World, k: Key, r: Res<()>)
    requires r.Failure?
  {
    && (r.error == AuditFailed || r.error == IoFailed || Uncertain(r.error))
    && OnlyGuard(s.disk.(records := t.disk.records, counter := t.disk.counter), t.disk, k)
    && (r.error == AuditFailed ==> t.disk == s.disk.(records := t.disk.records, counter := t.disk.counter))
  }

  /** Completing a guard is a licensed step, and issues nothing: the attempt is known. */
  lemma CompletingIsLicensed(s: World, k: Key, head: Head, guard: Guard)
    requires Inv(s) && ReadHead(s.disk, k) == Success(Some(head)) && head.state == Emitted
    requires ReadGuard(s.disk, k, head) == Success(guard) && guard.state == Checking
    requires Audited(s.disk, guard.attempt.value)
    ensures MayRewriteGuard(s, k, guard.(state := Completed)) && ValidGuard(head, guard.(state := Completed))
    ensures guard.attempt.value in s.hist.issued
  {
    assert KeyInv(s, k);
  }

  /** Complete the guard of an attempt whose evidence is counted. */
  method StoreCompleted(dir: PrivateDirectory, k: Key, head: Head, guard: Guard) returns (r: Res<()>)
    requires Inv(dir.Now()) && ReadHead(dir.disk, k) == Success(Some(head)) && head.state == Emitted
    requires ReadGuard(dir.disk, k, head) == Success(guard) && guard.state == Checking
    requires Audited(dir.disk, guard.attempt.value)
    modifies dir
    ensures old(dir.faults) <= dir.faults && (r.Success? <==> dir.faults == old(dir.faults))
    ensures dir.hist.issued == old(dir.hist).issued
    ensures Reaches(old(dir.Now()), dir.Now()) && OnlyGuard(old(dir.disk), dir.disk, k)
    ensures r.Success? ==> ReadGuard(dir.disk, k, head) == Success(guard.(state := Completed))
    ensures r.Failure? ==> r.error == IoFailed || Uncertain(r.error)
  {
    ghost var s := dir.Now();
    var completed := guard.(state := Completed);
    CompletingIsLicensed(s, k, head, guard);
    r := ReplaceGuard(dir, k, head, completed);
    GuardIsFailStop(s, dir.Now(), k, head, completed, r);
    GuardIssues(s, dir.Now(), k, completed, r);
  }

  /** Once the guard is Completed, the claimed snapshot can be read again. */
  lemma CompletedIsReadable(s: World, t: World, active: ActiveInstallation, claim: ClaimedCheck)
    requires Usable(s.disk, active) && FinishCheck(s.disk, active, claim).Success?
    requires OnlyGuard(s.disk.(records := t.disk.records, counter := t.disk.counter), t.disk, claim.key)
    requires ReadGuard(t.disk, claim.key, s.disk.heads[claim.key])
             == Success(s.disk.guards[claim.key].(state := Completed))
    ensures Usable(t.disk, active)
    ensures ReadSnapshot(t.disk, active, claim.key, claim.cwd)
            == Success(Snapshot(claim.pack, claim.epoch, claim.generation, claim.binding))
  {
  }

  /** Append the evidence, then store the Completed guard. */
  method CompleteClaim(dir: PrivateDirectory, active: ActiveInstallation, claim: ClaimedCheck, length: nat)
    returns (r: Res<()>)
    requires Inv(dir.Now()) && Usable(dir.disk, active) && FinishCheck(dir.disk, active, claim).Success?
    modifies dir
    ensures old(dir.faults) <= dir.faults
    ensures dir.faults == old(dir.faults) ==>
              (r.Success? <==>
                 && active.config.gate.Some?
                 && HasRoom(old(dir.disk), AuditRecord(claim.attempt, length), active.config.gate.value))
    ensures dir.hist.issued == old(dir.hist).issued
    ensures StrandedKept(old(dir.disk), dir.disk)
    ensures Reaches(old(dir.Now()), dir.Now())
    ensures r.Success? ==>
              && Usable(dir.disk, active) && dir.disk.heads == old(dir.disk.heads)
              && ReadGuard(dir.disk, claim.key, dir.disk.heads[claim.key])
                 == Success(old(dir.disk.guards)[claim.key].(state := Completed))
              && Audited(dir.disk, claim.attempt)
              && ReadSnapshot(dir.disk, active, claim.key, claim.cwd)
                 == Success(Snapshot(claim.pack, claim.epoch, claim.generation, claim.binding))
    ensures r.Failure? ==> FinishFailed(old(dir.Now()), dir.Now(), claim.key, r)
  {
    ghost var s := dir.Now();
    var k := claim.key;
    var head := dir.disk.heads[k];
    var guard := dir.disk.guards[k];
    if active.config.gate.None? {
      ReachesSelf(s);
      return Failure(AuditFailed);
    }
    var audited := RecordEvidence(dir, k, AuditRecord(claim.attempt, length), active.config.gate.value);
    ghost var t := dir.Now();
    if audited.Failure? {
      return audited;
    }
    r := StoreCompleted(dir, k, head, guard);
    ReachesOn(s, t, dir.Now());
    OtherRecordsKeep(s.disk, dir.disk);
    if r.Success? { CompletedIsReadable(s, dir.Now(), active, claim); }
  }

  /**
   Finalize a claimed check. `refusal` is the verdict of the caller's synchronous recheck, and
   `length` the size of the audit record it appends for the claimed attempt before it succeeds.
   */
  method FinishChecked(dir: PrivateDirectory, claim: ClaimedCheck, refusal: Option<Error>, length: nat,
                       loaded: Option<Config>, nonce: Uuid) returns (r: Res<()>)
    requires Inv(dir.Now()) && Unused(dir.Now(), nonce)
    modifies dir
    ensures old(dir.faults) <= dir.faults
    ensures dir.faults == old(dir.faults) && CheckActive(old(dir.disk), loaded).Success? ==>
              var active := CheckActive(old(dir.disk), loaded).value;
              (r.Success? <==>
                 && FinishCheck(old(dir.disk), active, claim).Success? && refusal.None? && active.config.gate.Some?
                 && HasRoom(old(dir.disk), AuditRecord(claim.attempt, length), active.config.gate.value))
    ensures Issues(old(dir.Now()), dir.Now(), {nonce})
    ensures StrandedKept(old(dir.disk), dir.disk)
    ensures Reaches(old(dir.Now()), dir.Now())
    ensures r.Success? ==>
              && CheckActive(old(dir.disk), loaded).Success? && refusal.None?
              && var active := CheckActive(old(dir.disk), loaded).value;
                 && FinishCheck(old(dir.disk), active, claim).Success?
                 && Usable(dir.disk, active) && dir.disk.heads == old(dir.disk.heads)
                 && ReadGuard(dir.disk, claim.key, dir.disk.heads[claim.key])
                    == Success(old(dir.disk.guards)[claim.key].(state := Completed))
                 && Audited(dir.disk, claim.attempt)
                 && ReadSnapshot(dir.disk, active, claim.key, claim.cwd)
                    == Success(Snapshot(claim.pack, claim.epoch, claim.generation, claim.binding))
    ensures CheckActive(old(dir.disk), loaded).Failure? ==>
              r.Failure? && ActiveRefused(old(dir.Now()), dir.Now(), loaded, nonce, r.error)
    ensures CheckActive(old(dir.disk), loaded).Success? ==>
              var check := FinishCheck(old(dir.disk), CheckActive(old(dir.disk), loaded).value, claim);
              && (check.Success? && refusal.Some? ==> r == Failure(refusal.value) && dir.Now() == old(dir.Now()))
              && (check.Failure? ==>
                   FinishRefused(old(dir.Now()), dir.Now(), CheckActive(old(dir.disk), loaded).value, claim, nonce, r))
              && (check.Success? && refusal.None? && r.Failure? ==>
                   FinishFailed(old(dir.Now()), dir.Now(), claim.key, r))
  {
    ghost var s := dir.Now();
    ReachesSelf(s);
    var active :- ActiveLocked(dir, loaded, nonce);
    if active.epoch != claim.epoch || active.nonce != claim.nonce {
      return Failure(SessionStale);
    }
    var k := claim.key;
    var _ :- CheckedHead(dir.disk, active, k, claim.parent);
    var found := ReadHead(dir.disk, k);
    if found.Failure? {
      var poisoned := PoisonLocked(dir, nonce);
      return Failure(if poisoned.Failure? then poisoned.error else found.error);
    }
    var _ :- FinishCheck(dir.disk, active, claim);
    if refusal.Some? {
      return Failure(refusal.value);
    }
    r := CompleteClaim(dir, active, claim, length);
  }
}
