/** Publication: exact payload, whole output, then Emitted last, for sessions and for their children. */
module Publishing {
  import opened Wrappers
  import opened Records
  import opened Reading
  import opened Protocol
  import opened Invariants
  import opened Preservation
  import opened State
  import opened Registers
  import opened Installation
  import opened Safety
  import opened Sessions
  import opened Stranding
  import opened Audit

  // ---- frames --------------------------------------------------------------------------

  /** Two disks hold the same records under one key. */
  ghost predicate SameAt(d: Disk, d': Disk, l: Key) {
    && (l in d.heads <==> l in d'.heads) && (l in d.heads ==> d'.heads[l] == d.heads[l])
    && (l in d.journals <==> l in d'.journals) && (l in d.journals ==> d'.journals[l] == d.journals[l])
    && (l in d.guards <==> l in d'.guards) && (l in d.guards ==> d'.guards[l] == d.guards[l])
    && (l in d.guardJournals <==> l in d'.guardJournals) &&
         (l in d.guardJournals ==> d'.guardJournals[l] == d.guardJournals[l])
    && (l in d.places <==> l in d'.places) && (l in d.places ==> d'.places[l] == d.places[l])
    && (forall root, g :: var n := PayloadName(root, l, g);
                          (n in d.payloads <==> n in d'.payloads) &&
                            (n in d.payloads ==> d'.payloads[n] == d.payloads[n]))
  }

  /** Only records of `k` and audit records differ. */
  ghost predicate Elsewhere(d: Disk, d': Disk, k: Key) {
    d'.manifest == d.manifest && d'.activation == d.activation && forall l :: l != k ==> SameAt(d, d', l)
  }

  lemma SameReads(d: Disk, d': Disk, active: ActiveInstallation, l: Key, cwd: Cwd)
    requires SameAt(d, d', l)
    ensures ReadHead(d', l) == ReadHead(d, l)
    ensures ReadSnapshot(d', active, l, cwd) == ReadSnapshot(d, active, l, cwd)
  {
    if ReadPresentHead(d, l).Success? {
      var n := PayloadName(active.config.root, l, ReadPresentHead(d, l).value.generation);
      assert n in d.payloads <==> n in d'.payloads;
    }
  }

  lemma SameParent(d: Disk, d': Disk, active: ActiveInstallation, proof: ParentProof)
    requires SameAt(d, d', proof.lineage.parent)
    ensures ValidateParent(d', active, proof) == ValidateParent(d, active, proof)
  {
    SameReads(d, d', active, proof.lineage.parent, proof.cwd);
  }

  /** No reader finds an Emitted head. */
  predicate Unpublished(d: Disk, k: Key) {
    ReadPresentHead(d, k).Failure? || ReadPresentHead(d, k).value.state != Emitted
  }

  /** A step of a publication: it follows the protocol, touches one key only and issues no identifier. */
  ghost predicate Progress(s: World, t: World, k: Key) {
    && Reaches(s, t) && Inv(t) && Elsewhere(s.disk, t.disk, k)
    && OrphanKept(s.disk, t.disk) && t.hist.issued == s.hist.issued
  }

  lemma ProgressOn(s: World, t: World, u: World, k: Key)
    requires Progress(s, t, k) && Progress(t, u, k)
    ensures Progress(s, u, k)
  {
    ReachesOn(s, t, u);
    forall l | l != k ensures SameAt(s.disk, u.disk, l) {
      assert SameAt(s.disk, t.disk, l) && SameAt(t.disk, u.disk, l);
    }
  }

  /** A publication that starts from a readable head touches nothing that is stranded. */
  lemma ProgressKeepsStranded(s: World, t: World, k: Key)
    requires Progress(s, t, k) && ReadHead(s.disk, k).Success?
    ensures StrandedKept(s.disk, t.disk)
  {
    forall l | StrandedSession(s.disk, l) ensures SameSession(s.disk, t.disk, l) {
      StrandedIsUnreadable(s.disk, l);
      assert l != k && SameAt(s.disk, t.disk, l);
    }
  }

  lemma HeadProgress(s: World, t: World, k: Key)
    requires OnlyHead(s.disk, t.disk, k) && Reaches(s, t) && Inv(t) && t.hist.issued == s.hist.issued
    ensures Progress(s, t, k)
  {
  }

  /** Move one head by its two files. */
  method CommitHead(dir: PrivateDirectory, k: Key, h: Head) returns (r: Res<()>)
    requires ValidHead(k, h) && MayRewriteHead(dir.Now(), k, h) && h.generation in dir.hist.issued
    modifies dir
    ensures old(dir.faults) <= dir.faults && (r.Success? <==> dir.faults == old(dir.faults))
    ensures Progress(old(dir.Now()), dir.Now(), k) && OnlyHead(old(dir.disk), dir.disk, k)
    ensures HeadRewrote(old(dir.Now()), dir.Now(), k, h, r)
    ensures r.Success? ==> ReadHead(dir.disk, k) == Success(Some(h))
    ensures r.Failure? && !Uncertain(r.error) ==>
              r.error == IoFailed && (dir.Now() == old(dir.Now()) || ReadHead(dir.disk, k).Failure?)
  {
    ghost var s := dir.Now();
    r := ReplaceHead(dir, k, h);
    HeadIsFailStop(s, dir.Now(), k, h, r);
    HeadIssues(s, dir.Now(), k, h, r);
    HeadProgress(s, dir.Now(), k);
  }

  // ---- the stages ----------------------------------------------------------------------

  /** Store the exact payload of the generation that is about to be prepared. */
  method StorePayload(dir: PrivateDirectory, root: nat, k: Key, pending: Head, payload: Payload) returns (r: Res<()>)
    requires Inv(dir.Now()) && ReadHead(dir.disk, k) == Success(Some(pending)) && pending.state == Pending
    modifies dir
    ensures old(dir.faults) <= dir.faults && (r.Success? <==> dir.faults == old(dir.faults))
    ensures Progress(old(dir.Now()), dir.Now(), k)
    ensures dir.disk == old(dir.disk).(payloads := dir.disk.payloads) && dir.hist == old(dir.hist)
    ensures r.Success? ==>
              && PayloadName(root, k, pending.generation) in dir.disk.payloads
              && dir.disk.payloads[PayloadName(root, k, pending.generation)] == payload
    ensures r.Failure? ==> r.error == IoFailed || Uncertain(r.error)
  {
    ghost var s := dir.Now();
    var write := PutPayload(PayloadName(root, k, pending.generation), payload);
    ReachesSelf(s);
    ReachesNext(s, Wrote(write));
    ReachesKeeps(s, After(s, write));
    r := dir.Replace(write);
  }

  /** Store the exact payload, then commit the Prepared head that names it. */
  method StorePrepared(dir: PrivateDirectory, active: ActiveInstallation, k: Key, pending: Head, prepared: Head)
    returns (r: Res<()>)
    requires Inv(dir.Now()) && Usable(dir.disk, active)
    requires ReadHead(dir.disk, k) == Success(Some(pending)) && pending.state == Pending &&
               pending.epoch == active.epoch
    requires PendingOf(k, pending) in dir.hist.handed
    requires prepared == pending.(state := Prepared, evidence := prepared.evidence, lineage := prepared.lineage)
    requires LineageIsCurrent(dir.disk, prepared) && (prepared.lineage.Some? ==> prepared.lineage.value.parent != k)
    requires prepared.evidence.Some?
    requires ValidHead(k, prepared) ==>
               && PayloadMatches(k, prepared, prepared.evidence.value.payload)
               && prepared.evidence.value.payload.pack.ValidFor(prepared.evidence.value.payload.binding)
    modifies dir
    ensures old(dir.faults) <= dir.faults
    ensures dir.faults == old(dir.faults) ==> (r.Success? <==> ValidHead(k, prepared))
    ensures dir.disk.records == old(dir.disk).records && dir.disk.counter == old(dir.disk).counter
    ensures Progress(old(dir.Now()), dir.Now(), k)
    ensures r.Success? ==>
              && ReadHead(dir.disk, k) == Success(Some(prepared)) && ValidHead(k, prepared)
              && PayloadName(active.config.root, k, prepared.generation) in dir.disk.payloads
              && dir.disk.payloads[PayloadName(active.config.root, k, prepared.generation)]
                   == prepared.evidence.value.payload
    ensures r.Failure? ==> Faulted(r.error) || (r.error == SnapshotInvalid && !ValidHead(k, prepared))
    ensures r.Failure? && !Uncertain(r.error) ==> Unpublished(dir.disk, k)
  {
    ghost var s := dir.Now();
    var stored := StorePayload(dir, active.config.root, k, pending, prepared.evidence.value.payload);
    ghost var t := dir.Now();
    if stored.Failure? {
      return stored;
    }
    if !ValidHead(k, prepared) {
      return Failure(SnapshotInvalid);
    }
    assert KeyInv(t, k);
    assert Evidenced(t, k, prepared);
    r := CommitHead(dir, k, prepared);
    ProgressOn(s, t, dir.Now(), k);
  }

  lemma PlaceProgress(s: World, k: Key, place: Place)
    requires Inv(s) && k in s.disk.heads
    ensures Progress(s, s, k) && Progress(s, After(s, PutPlace(k, place)), k)
  {
    ReachesSelf(s);
    ReachesNext(s, Wrote(PutPlace(k, place)));
    ReachesKeeps(s, After(s, PutPlace(k, place)));
  }

  /** Record where a published session was delivered, and read the record back. */
  method ReplacePlace(dir: PrivateDirectory, active: ActiveInstallation, k: Key, h: Head, cwd: Cwd, actual: Option<Cwd>)
    returns (r: Res<()>)
    requires Inv(dir.Now()) && k in dir.disk.heads && h.binding.Some?
    modifies dir
    ensures old(dir.faults) <= dir.faults
    ensures dir.faults == old(dir.faults) && active.config.Resolve(cwd) == Success(h.binding.value) ==>
              (r.Success? <==> actual == Some(cwd))
    ensures Progress(old(dir.Now()), dir.Now(), k)
    ensures dir.disk == old(dir.disk).(places := dir.disk.places) && dir.hist == old(dir.hist)
    ensures r.Success? ==> actual == Some(cwd) && ReadPlace(dir.disk, active.config, k, h) == Success(cwd)
    ensures r.Failure? ==>
              Faulted(r.error) || (r.error == SnapshotInvalid && actual != Some(cwd)) ||
                active.config.Resolve(cwd) != Success(h.binding.value)
  {
    ghost var s := dir.Now();
    ReachesSelf(s);
    if actual != Some(cwd) {
      return Failure(SnapshotInvalid);
    }
    var place := Place(h.epoch, h.nonce, h.generation, h.sequence, h.binding.value, cwd);
    var write := PutPlace(k, place);
    PlaceProgress(s, k, place);
    var _ :- dir.Replace(write);
    var _ :- ReadPlace(dir.disk, active.config, k, h);
    return Success(());
  }

  /** How writing to the client ends: cut by an error, by a stop before or after the flush, or whole. */
  datatype StreamOutcome = CutShort | StoppedWriting | StoppedFlushed | FlushedWhole

  /** Write and flush the whole output; a failed or cut write is not recorded as flushed. */
  method WriteOutput(dir: PrivateDirectory, publication: Publication) returns (r: Res<()>)
    requires Inv(dir.Now()) && May(dir.Now(), Flushed(publication))
    modifies dir`hist, dir`faults
    ensures old(dir.faults) <= dir.faults && (r.Success? <==> dir.faults == old(dir.faults))
    ensures Progress(old(dir.Now()), dir.Now(), publication.key)
    ensures r.Success? || r.error == WriterFailed || r.error == Stopped
    ensures r.Success? ==> dir.Now() == Next(old(dir.Now()), Flushed(publication))
    ensures r == Failure(WriterFailed) ==> dir.Now() == old(dir.Now())
  {
    ghost var s := dir.Now();
    ReachesSelf(s);
    ReachesNext(s, Flushed(publication));
    ReachesKeeps(s, Next(s, Flushed(publication)));
    var outcome: StreamOutcome := *;
    dir.faults := dir.faults + if outcome == FlushedWhole then 0 else 1;
    match outcome {
      case CutShort => return Failure(WriterFailed);
      case StoppedWriting => return Failure(Stopped);
      case StoppedFlushed =>
        dir.hist := Next(s, Flushed(publication)).hist;
        return Failure(Stopped);
      case FlushedWhole =>
        dir.hist := Next(s, Flushed(publication)).hist;
        return Success(());
    }
  }

  function IdleGuard(h: Head): Guard {
    Guard(h.epoch, h.nonce, h.generation, h.sequence, Idle, None)
  }

  lemma GuardProgress(s: World, t: World, k: Key)
    requires OnlyGuard(s.disk, t.disk, k) && Reaches(s, t) && Inv(t) && t.hist.issued == s.hist.issued
    ensures Progress(s, t, k)
  {
  }

  /** Store the first guard of a prepared generation. */
  method StoreIdleGuard(dir: PrivateDirectory, k: Key, prepared: Head) returns (r: Res<()>)
    requires Inv(dir.Now()) && ReadHead(dir.disk, k) == Success(Some(prepared)) && prepared.state == Prepared
    modifies dir
    ensures old(dir.faults) <= dir.faults && (r.Success? <==> dir.faults == old(dir.faults))
    ensures Progress(old(dir.Now()), dir.Now(), k)
    ensures dir.disk == old(dir.disk).(guards := dir.disk.guards, guardJournals := dir.disk.guardJournals)
    ensures dir.hist == old(dir.hist).(guarded := dir.hist.guarded)
    ensures r.Success? ==>
              ReadGuard(dir.disk, k, prepared) == Success(IdleGuard(prepared)) &&
                GuardStored(dir.Now(), k, prepared.generation)
    ensures r.Failure? ==> Faulted(r.error)
  {
    ghost var s := dir.Now();
    var guard := IdleGuard(prepared);
    r := ReplaceGuard(dir, k, prepared, guard);
    GuardIsFailStop(s, dir.Now(), k, prepared, guard, r);
    GuardProgress(s, dir.Now(), k);
  }

  /** Commit Emitted behind a flushed output and, where one is needed, a stored guard. */
  method EmitHead(dir: PrivateDirectory, active: ActiveInstallation, k: Key, prepared: Head) returns (r: Res<()>)
    requires Inv(dir.Now()) && Usable(dir.disk, active) && active.epoch == prepared.epoch
    requires ReadHead(dir.disk, k) == Success(Some(prepared)) && prepared.state == Prepared
    requires Publication(k, prepared.generation, prepared.evidence.value.output) in dir.hist.flushed
    requires NeedsGuard(k, active.config) ==>
               ReadGuard(dir.disk, k, prepared) == Success(IdleGuard(prepared)) &&
                 GuardStored(dir.Now(), k, prepared.generation)
    modifies dir
    ensures old(dir.faults) <= dir.faults && (r.Success? <==> dir.faults == old(dir.faults))
    ensures Progress(old(dir.Now()), dir.Now(), k) && OnlyHead(old(dir.disk), dir.disk, k)
    ensures dir.hist.flushed == old(dir.hist.flushed)
    ensures r.Success? ==> ReadHead(dir.disk, k) == Success(Some(prepared.(state := Emitted)))
    ensures r.Failure? ==> Faulted(r.error)
    ensures r.Failure? && !Uncertain(r.error) ==> Unpublished(dir.disk, k)
  {
    assert KeyInv(dir.Now(), k) && InstallationInv(dir.Now());
    r := CommitHead(dir, k, prepared.(state := Emitted));
  }

  /** Store the first guard when one is needed, then commit Emitted last. */
  method CommitEmitted(dir: PrivateDirectory, active: ActiveInstallation, k: Key, prepared: Head, guarded: bool)
    returns (r: Res<()>)
    requires Inv(dir.Now()) && Usable(dir.disk, active) && active.epoch == prepared.epoch
    requires ReadHead(dir.disk, k) == Success(Some(prepared)) && prepared.state == Prepared
    requires Publication(k, prepared.generation, prepared.evidence.value.output) in dir.hist.flushed
    requires NeedsGuard(k, active.config) ==> guarded
    modifies dir
    ensures old(dir.faults) <= dir.faults && (r.Success? <==> dir.faults == old(dir.faults))
    ensures Progress(old(dir.Now()), dir.Now(), k)
    ensures r.Success? ==>
              && ReadHead(dir.disk, k) == Success(Some(prepared.(state := Emitted)))
              && ReadGate(dir.disk, active, k, prepared.(state := Emitted)).Success?
              && dir.disk.places == old(dir.disk.places) && dir.hist.flushed == old(dir.hist.flushed)
    ensures r.Failure? ==> Faulted(r.error)
    ensures r.Failure? && !Uncertain(r.error) ==> Unpublished(dir.disk, k)
  {
    ghost var s := dir.Now();
    ReachesSelf(s);
    assert Progress(s, s, k);
    if guarded {
      var stored := StoreIdleGuard(dir, k, prepared);
      if stored.Failure? {
        return stored;
      }
    }
    ghost var t := dir.Now();
    r := EmitHead(dir, active, k, prepared);
    ProgressOn(s, t, dir.Now(), k);
  }

  /** A current Emitted head is read back exactly, whenever its guard lets it be read. */
  lemma EmittedIsReadable(t: World, active: ActiveInstallation, k: Key, h: Head, cwd: Cwd)
    requires Inv(t) && Usable(t.disk, active) && ReadHead(t.disk, k) == Success(Some(h))
    requires h.state == Emitted && h.epoch == active.epoch && h.nonce == active.nonce
    requires active.config.Resolve(cwd) == Success(h.binding.value) && ReadGate(t.disk, active, k, h).Success?
    ensures ReadSnapshot(t.disk, active, k, cwd)
            == Success(Snapshot(h.evidence.value.payload.pack, h.epoch, h.generation, h.binding.value))
  {
    assert KeyInv(t, k) && InstallationInv(t);
  }

  /** Store the payload and the Prepared head, and record the place if asked. */
  method StageHead(dir: PrivateDirectory, active: ActiveInstallation, k: Key, pending: Head, prepared: Head,
                   cwd: Cwd, actual: Option<Cwd>, recordPlace: bool) returns (r: Res<()>)
    requires Inv(dir.Now()) && Usable(dir.disk, active)
    requires ReadHead(dir.disk, k) == Success(Some(pending)) && pending.state == Pending &&
               pending.epoch == active.epoch
    requires PendingOf(k, pending) in dir.hist.handed
    requires prepared == pending.(state := Prepared, evidence := prepared.evidence, lineage := prepared.lineage)
    requires LineageIsCurrent(dir.disk, prepared) && (prepared.lineage.Some? ==> prepared.lineage.value.parent != k)
    requires prepared.evidence.Some? && prepared.binding.Some?
    requires ValidHead(k, prepared) ==>
               && PayloadMatches(k, prepared, prepared.evidence.value.payload)
               && prepared.evidence.value.payload.pack.ValidFor(prepared.evidence.value.payload.binding)
    modifies dir
    ensures old(dir.faults) <= dir.faults
    ensures dir.faults == old(dir.faults) && active.config.Resolve(cwd) == Success(prepared.binding.value) ==>
              (r.Success? <==> ValidHead(k, prepared) && (recordPlace ==> actual == Some(cwd)))
    ensures dir.disk.records == old(dir.disk).records && dir.disk.counter == old(dir.disk).counter
    ensures Progress(old(dir.Now()), dir.Now(), k)
    ensures r.Success? ==>
              && ReadHead(dir.disk, k) == Success(Some(prepared)) && ValidHead(k, prepared)
              && (recordPlace ==> ReadPlace(dir.disk, active.config, k, prepared) == Success(cwd))
    ensures r.Failure? && !Faulted(r.error) && active.config.Resolve(cwd) == Success(prepared.binding.value) ==>
              r.error == SnapshotInvalid && (!ValidHead(k, prepared) || (recordPlace && actual != Some(cwd)))
    ensures r.Failure? && !Uncertain(r.error) ==> Unpublished(dir.disk, k)
  {
    ghost var s := dir.Now();
    r := StorePrepared(dir, active, k, pending, prepared);
    if r.Failure? || !recordPlace {
      return;
    }
    ghost var t := dir.Now();
    r := ReplacePlace(dir, active, k, prepared, cwd, actual);
    ProgressOn(s, t, dir.Now(), k);
  }

  /** Store the payload and the Prepared head, record the place if asked, then write the whole output. */
  method StageOutput(dir: PrivateDirectory, active: ActiveInstallation, k: Key, pending: Head, prepared: Head,
                     cwd: Cwd, actual: Option<Cwd>, recordPlace: bool) returns (r: Res<()>)
    requires Inv(dir.Now()) && Usable(dir.disk, active)
    requires ReadHead(dir.disk, k) == Success(Some(pending)) && pending.state == Pending &&
               pending.epoch == active.epoch
    requires PendingOf(k, pending) in dir.hist.handed
    requires prepared == pending.(state := Prepared, evidence := prepared.evidence, lineage := prepared.lineage)
    requires LineageIsCurrent(dir.disk, prepared) && (prepared.lineage.Some? ==> prepared.lineage.value.parent != k)
    requires prepared.evidence.Some? && prepared.binding.Some?
    requires ValidHead(k, prepared) ==>
               && PayloadMatches(k, prepared, prepared.evidence.value.payload)
               && prepared.evidence.value.payload.pack.ValidFor(prepared.evidence.value.payload.binding)
    modifies dir
    ensures old(dir.faults) <= dir.faults
    ensures dir.faults == old(dir.faults) && active.config.Resolve(cwd) == Success(prepared.binding.value) ==>
              (r.Success? <==> ValidHead(k, prepared) && (recordPlace ==> actual == Some(cwd)))
    ensures dir.disk.records == old(dir.disk).records && dir.disk.counter == old(dir.disk).counter
    ensures Progress(old(dir.Now()), dir.Now(), k)
    ensures r.Success? ==>
              && ReadHead(dir.disk, k) == Success(Some(prepared)) && ValidHead(k, prepared)
              && Publication(k, prepared.generation, prepared.evidence.value.output) in dir.hist.flushed
              && (recordPlace ==> ReadPlace(dir.disk, active.config, k, prepared) == Success(cwd))
    ensures r.Failure? && !Faulted(r.error) && active.config.Resolve(cwd) == Success(prepared.binding.value) ==>
              r.error == SnapshotInvalid && (!ValidHead(k, prepared) || (recordPlace && actual != Some(cwd)))
    ensures r.Failure? && !Uncertain(r.error) ==> Unpublished(dir.disk, k)
  {
    ghost var s := dir.Now();
    r := StageHead(dir, active, k, pending, prepared, cwd, actual, recordPlace);
    if r.Failure? {
      return;
    }
    ghost var t := dir.Now();
    r := WriteOutput(dir, Publication(k, prepared.generation, prepared.evidence.value.output));
    ProgressOn(s, t, dir.Now(), k);
  }

  // ---- sessions ------------------------------------------------------------------------

  /** The Prepared head a session publication commits, or why it is refused. */
  function PrepareSession(d: Disk, active: ActiveInstallation, pending: PendingGeneration, cwd: Cwd,
                          pack: Pack): Res<Head> {
    if active.epoch != pending.epoch || active.nonce != pending.nonce then Failure(SessionStale)
    else
      var head :- CurrentPending(d, pending);
      var binding :- active.config.Resolve(cwd);
      if head.binding != Some(binding) then Failure(SessionStale)
      else if !pack.ValidFor(binding) then Failure(SnapshotInvalid)
      else
        var output := Output(SessionStart, pack);
        var payload := Payload(1, pending.key, pending.epoch, pending.nonce, pending.generation, pending.sequence,
                               binding, None, output, pack);
        Success(head.(state := Prepared, evidence := Some(Evidence(payload, output))))
  }

  /** Publish a prepared session: exact payload, place, whole output, guard, Emitted. */
  method PublishSession(dir: PrivateDirectory, active: ActiveInstallation, k: Key, head: Head, prepared: Head,
                        cwd: Cwd, actual: Option<Cwd>) returns (r: Res<()>)
    requires Inv(dir.Now()) && Usable(dir.disk, active) && (k.Root? || !ValidHead(k, prepared))
    requires ReadHead(dir.disk, k) == Success(Some(head)) && head.state == Pending && head.epoch == active.epoch
    requires PendingOf(k, head) in dir.hist.handed
    requires prepared == head.(state := Prepared, evidence := prepared.evidence) && prepared.evidence.Some?
    requires prepared.lineage.None?
    requires prepared.binding.Some? && active.config.Resolve(cwd) == Success(prepared.binding.value) &&
               prepared.nonce == active.nonce
    requires ValidHead(k, prepared) ==>
               && PayloadMatches(k, prepared, prepared.evidence.value.payload)
               && prepared.evidence.value.payload.pack.ValidFor(prepared.evidence.value.payload.binding)
    modifies dir
    ensures old(dir.faults) <= dir.faults
    ensures dir.faults == old(dir.faults) ==>
              (r.Success? <==> ValidHead(k, prepared) && (active.config.delegation ==> actual == Some(cwd)))
    ensures Progress(old(dir.Now()), dir.Now(), k)
    ensures r.Success? ==>
              && Usable(dir.disk, active)
              && ReadHead(dir.disk, k) == Success(Some(prepared.(state := Emitted)))
              && ReadSnapshot(dir.disk, active, k, cwd)
                 == Success(Snapshot(prepared.evidence.value.payload.pack, prepared.epoch, prepared.generation,
                   prepared.binding.value))
              && (active.config.delegation ==>
                   ReadPlace(dir.disk, active.config, k, prepared.(state := Emitted)) == Success(cwd))
              && Publication(k, prepared.generation, prepared.evidence.value.output) in dir.hist.flushed
    ensures r.Failure? && !Faulted(r.error) ==>
              r.error == SnapshotInvalid &&
                (!ValidHead(k, prepared) || (active.config.delegation && actual != Some(cwd)))
    ensures r.Failure? && !Uncertain(r.error) ==> Unpublished(dir.disk, k)
  {
    ghost var s := dir.Now();
    r := StageOutput(dir, active, k, head, prepared, cwd, actual, active.config.delegation);
    if r.Failure? {
      return;
    }
    ghost var t := dir.Now();
    r := CommitEmitted(dir, active, k, prepared, active.config.gate.Some?);
    ProgressOn(s, t, dir.Now(), k);
    if r.Success? {
      EmittedIsReadable(dir.Now(), active, k, prepared.(state := Emitted), cwd);
    }
  }

  method CompleteSession(dir: PrivateDirectory, pending: PendingGeneration, cwd: Cwd, pack: Pack,
                         loaded: Option<Config>, actual: Option<Cwd>, nonce: Uuid) returns (r: Res<()>)
    requires Inv(dir.Now()) && Unused(dir.Now(), nonce) && pending in dir.hist.handed
    modifies dir
    ensures old(dir.faults) <= dir.faults
    ensures dir.faults == old(dir.faults) && CheckActive(old(dir.disk), loaded).Success? ==>
              var active := CheckActive(old(dir.disk), loaded).value;
              (r.Success? <==>
                 && pack.sound && PrepareSession(old(dir.disk), active, pending, cwd, pack).Success?
                 && pending.key.Root? && (active.config.delegation ==> actual == Some(cwd)))
    ensures Issues(old(dir.Now()), dir.Now(), {nonce})
    ensures StrandedKept(old(dir.disk), dir.disk)
    ensures Reaches(old(dir.Now()), dir.Now())
    ensures !pack.sound ==> r == Failure(OutputTooLarge) && dir.Now() == old(dir.Now())
    ensures pack.sound && CheckActive(old(dir.disk), loaded).Failure? ==>
              r.Failure? && ActiveRefused(old(dir.Now()), dir.Now(), loaded, nonce, r.error)
    ensures pack.sound && CheckActive(old(dir.disk), loaded).Success? ==>
              var active := CheckActive(old(dir.disk), loaded).value;
              var prepare := PrepareSession(old(dir.disk), active, pending, cwd, pack);
              && Elsewhere(old(dir.disk), dir.disk, pending.key)
              && (prepare.Failure? ==> r == Failure(prepare.error) && dir.Now() == old(dir.Now()))
              && (r.Success? ==>
                    && Usable(dir.disk, active)
                    && ReadHead(dir.disk, pending.key) == Success(Some(prepare.value.(state := Emitted)))
                    && ReadSnapshot(dir.disk, active, pending.key, cwd)
                       == Success(Snapshot(pack, pending.epoch, pending.generation, prepare.value.binding.value))
                    && (active.config.delegation ==>
                         ReadPlace(dir.disk, active.config, pending.key, prepare.value.(state := Emitted))
                           == Success(cwd))
                    && Publication(pending.key, pending.generation, Output(SessionStart, pack)) in dir.hist.flushed)
              && (prepare.Success? && r.Failure? && !Faulted(r.error) ==>
                    r.error == SnapshotInvalid &&
                      (pending.key.Child? || (active.config.delegation && actual != Some(cwd))))
              && (prepare.Success? && r.Failure? && !Uncertain(r.error) ==> Unpublished(dir.disk, pending.key))
  {
    ghost var s := dir.Now();
    ReachesSelf(s);
    if !pack.sound {
      return Failure(OutputTooLarge);
    }
    var active :- ActiveLocked(dir, loaded, nonce);
    assert Progress(s, s, pending.key);
    var prepared :- PrepareSession(dir.disk, active, pending, cwd, pack);
    assert KeyInv(s, pending.key);
    r := PublishSession(dir, active, pending.key, CurrentPending(dir.disk, pending).value, prepared, cwd, actual);
    ProgressKeepsStranded(s, dir.Now(), pending.key);
  }

  // ---- children ------------------------------------------------------------------------

  /** The Prepared head a child publication commits, or why it is refused. */
  function PrepareChild(d: Disk, active: ActiveInstallation, pending: PendingGeneration,
                        proof: ParentProof): Res<Head> {
    if active.epoch != pending.epoch || active.nonce != pending.nonce then Failure(SessionStale)
    else
      var parent :- ValidateParent(d, active, proof);
      var head :- CurrentPending(d, pending);
      if head.version != 2 then Failure(SnapshotInvalid)
      else
        var binding :- active.config.Resolve(proof.cwd);
        if head.binding != Some(binding) || binding != proof.lineage.binding then Failure(SnapshotInvalid)
        else if !proof.pack.ValidFor(binding) then Failure(SnapshotInvalid)
        else
          var output := Output(SubagentStart, proof.pack);
          var payload := Payload(2, pending.key, pending.epoch, pending.nonce, pending.generation, pending.sequence,
                                 binding, Some(proof.lineage), output, proof.pack);
          Success(head.(state := Prepared, lineage := Some(proof.lineage), evidence := Some(Evidence(payload, output))))
  }

  lemma AuditProgress(s: World, t: World, k: Key)
    requires t.disk == s.disk.(records := t.disk.records, counter := t.disk.counter) && Reaches(s, t) && Inv(t)
    requires OrphanKept(s.disk, t.disk) && t.hist.issued == s.hist.issued
    ensures Progress(s, t, k)
  {
  }

  /** Append audit evidence; a refusal is reported as an audit failure. */
  method RecordEvidence(dir: PrivateDirectory, k: Key, record: AuditRecord, limits: Limits) returns (r: Res<()>)
    requires Inv(dir.Now())
    modifies dir
    ensures old(dir.faults) <= dir.faults
    ensures dir.faults == old(dir.faults) ==> (r.Success? <==> HasRoom(old(dir.disk), record, limits))
    ensures StrandedKept(old(dir.disk), dir.disk)
    ensures Progress(old(dir.Now()), dir.Now(), k)
    ensures dir.disk == old(dir.disk).(records := dir.disk.records, counter := dir.disk.counter)
    ensures dir.hist == old(dir.hist).(limits := dir.hist.limits)
    ensures r.Success? ==> Audited(dir.disk, record.attempt)
    ensures r.Success? || r.error == AuditFailed || r.error == Stopped
  {
    ghost var s := dir.Now();
    var appended := AppendRecord(dir, record, limits);
    AuditProgress(s, dir.Now(), k);
    if appended.Failure? {
      return Failure(if appended.error == Stopped then Stopped else AuditFailed);
    }
    return Success(());
  }

  /** Append the audit evidence of a child, then store its guard and commit Emitted. */
  method EmitAudited(dir: PrivateDirectory, active: ActiveInstallation, k: Key, prepared: Head, record: AuditRecord)
    returns (r: Res<()>)
    requires Inv(dir.Now()) && Usable(dir.disk, active) && active.epoch == prepared.epoch
    requires ReadHead(dir.disk, k) == Success(Some(prepared)) && prepared.state == Prepared
    requires Publication(k, prepared.generation, prepared.evidence.value.output) in dir.hist.flushed
    modifies dir
    ensures old(dir.faults) <= dir.faults
    ensures dir.faults == old(dir.faults) ==>
              (r.Success? <==> active.config.gate.Some? && HasRoom(old(dir.disk), record, active.config.gate.value))
    ensures Progress(old(dir.Now()), dir.Now(), k)
    ensures r.Success? ==>
              && active.config.gate.Some?
              && ReadHead(dir.disk, k) == Success(Some(prepared.(state := Emitted)))
              && ReadGate(dir.disk, active, k, prepared.(state := Emitted)).Success?
              && dir.hist.flushed == old(dir.hist.flushed) && Audited(dir.disk, record.attempt)
    ensures r.Failure? && !Faulted(r.error) ==>
              r.error == AuditFailed || (r.error == ConfigInvalid && active.config.gate.None?)
    ensures r.Failure? && !Uncertain(r.error) ==> Unpublished(dir.disk, k)
  {
    ghost var s := dir.Now();
    ReachesSelf(s);
    assert Progress(s, s, k);
    if active.config.gate.None? {
      return Failure(ConfigInvalid);
    }
    var audited := RecordEvidence(dir, k, record, active.config.gate.value);
    ghost var t := dir.Now();
    if audited.Failure? {
      return audited;
    }
    r := CommitEmitted(dir, active, k, prepared, true);
    ProgressOn(s, t, dir.Now(), k);
    ReachesKeeps(t, dir.Now());
    AuditedStays(t.disk, dir.disk, record.attempt);
  }

  /** The caller's identities agree, and the pack can be published. */
  function ChildStart(session: string, agent: string, pending: PendingGeneration, proof: ParentProof): Res<()> {
    if pending.key != Child(session, agent) then Failure(SessionStale)
    else
      var parent :- SessionKey(session);
      if proof.lineage.parent != parent then Failure(SessionStale)
      else if !proof.pack.sound then Failure(OutputTooLarge)
      else Success(())
  }

  /** Publish a prepared child: exact payload, place, whole output, audit evidence, guard, Emitted. */
  method PublishChild(dir: PrivateDirectory, active: ActiveInstallation, k: Key, head: Head, prepared: Head,
                      cwd: Cwd, record: AuditRecord, actual: Option<Cwd>) returns (r: Res<()>)
    requires Inv(dir.Now()) && Usable(dir.disk, active) && ValidHead(k, prepared)
    requires ReadHead(dir.disk, k) == Success(Some(head)) && head.state == Pending && head.epoch == active.epoch
    requires PendingOf(k, head) in dir.hist.handed
    requires prepared == head.(state := Prepared, evidence := prepared.evidence, lineage := prepared.lineage)
    requires LineageIsCurrent(dir.disk, prepared) && (prepared.lineage.Some? ==> prepared.lineage.value.parent != k)
    requires prepared.binding.Some? && active.config.Resolve(cwd) == Success(prepared.binding.value)
    requires prepared.nonce == active.nonce
    requires PayloadMatches(k, prepared, prepared.evidence.value.payload)
    requires prepared.evidence.value.payload.pack.ValidFor(prepared.evidence.value.payload.binding)
    modifies dir
    ensures old(dir.faults) <= dir.faults
    ensures dir.faults == old(dir.faults) ==>
              (r.Success? <==>
                 && actual == Some(cwd)
                 && active.config.gate.Some? && HasRoom(old(dir.disk), record, active.config.gate.value))
    ensures Progress(old(dir.Now()), dir.Now(), k)
    ensures r.Success? ==>
              && Usable(dir.disk, active) && active.config.gate.Some?
              && ReadHead(dir.disk, k) == Success(Some(prepared.(state := Emitted)))
              && ReadSnapshot(dir.disk, active, k, cwd)
                 == Success(Snapshot(prepared.evidence.value.payload.pack, prepared.epoch, prepared.generation,
                                     prepared.binding.value))
              && Publication(k, prepared.generation, prepared.evidence.value.output) in dir.hist.flushed
              && Audited(dir.disk, record.attempt)
    ensures r.Failure? && !Faulted(r.error) ==>
              || (r.error == SnapshotInvalid && actual != Some(cwd))
              || (r.error == ConfigInvalid && active.config.gate.None?)
              || r.error == AuditFailed
    ensures r.Failure? && !Uncertain(r.error) ==> Unpublished(dir.disk, k)
  {
    ghost var s := dir.Now();
    r := StageOutput(dir, active, k, head, prepared, cwd, actual, true);
    ghost var t := dir.Now();
    if r.Failure? {
      return;
    }
    if active.config.gate.Some? { SameRoom(s.disk, t.disk, record, active.config.gate.value); }
    r := EmitAudited(dir, active, k, prepared, record);
    ProgressOn(s, t, dir.Now(), k);
    if r.Success? { EmittedIsReadable(dir.Now(), active, k, prepared.(state := Emitted), cwd); }
  }

  /**
   Publish one child from a freshly validated direct parent. `record` is the audit evidence, with
   its own fresh attempt; it is appended after the output and before the guard and Emitted.
   */
  method CompleteChild(dir: PrivateDirectory, session: string, agent: string, pending: PendingGeneration,
                       proof: ParentProof, record: AuditRecord, loaded: Option<Config>, actual: Option<Cwd>,
                       nonce: Uuid)
    returns (r: Res<()>)
    requires Inv(dir.Now()) && Unused(dir.Now(), nonce) && pending in dir.hist.handed
    modifies dir
    ensures old(dir.faults) <= dir.faults
    ensures dir.faults == old(dir.faults) && CheckActive(old(dir.disk), loaded).Success? ==>
              var active := CheckActive(old(dir.disk), loaded).value;
              (r.Success? <==>
                 && ChildStart(session, agent, pending, proof).Success?
                 && PrepareChild(old(dir.disk), active, pending, proof).Success?
                 && actual == Some(proof.cwd)
                 && active.config.gate.Some? && HasRoom(old(dir.disk), record, active.config.gate.value))
    ensures Issues(old(dir.Now()), dir.Now(), {nonce})
    ensures StrandedKept(old(dir.disk), dir.disk)
    ensures Reaches(old(dir.Now()), dir.Now())
    ensures var start := ChildStart(session, agent, pending, proof);
            start.Failure? ==> r == Failure(start.error) && dir.Now() == old(dir.Now())
    ensures ChildStart(session, agent, pending, proof).Success? && CheckActive(old(dir.disk), loaded).Failure? ==>
              r.Failure? && ActiveRefused(old(dir.Now()), dir.Now(), loaded, nonce, r.error)
    ensures ChildStart(session, agent, pending, proof).Success? && CheckActive(old(dir.disk), loaded).Success? ==>
              var active := CheckActive(old(dir.disk), loaded).value;
              var prepare := PrepareChild(old(dir.disk), active, pending, proof);
              && Elsewhere(old(dir.disk), dir.disk, pending.key)
              && (prepare.Failure? ==> r == Failure(prepare.error) && dir.Now() == old(dir.Now()))
              && (r.Success? ==>
                    && Usable(dir.disk, active) && active.config.gate.Some?
                    && ChildStands(dir.disk, active, proof, pending.key)
                    && ReadChild(dir.disk, active, proof, pending.key, proof.cwd)
                       == Success(Snapshot(proof.pack, pending.epoch, pending.generation, proof.lineage.binding))
                    && Publication(pending.key, pending.generation, Output(SubagentStart, proof.pack))
                       in dir.hist.flushed
                    && Audited(dir.disk, record.attempt))
              && (prepare.Success? && r.Failure? && !Faulted(r.error) ==>
                    || (r.error == SnapshotInvalid && actual != Some(proof.cwd))
                    || (r.error == ConfigInvalid && active.config.gate.None?)
                    || r.error == AuditFailed)
              && (prepare.Success? && r.Failure? && !Uncertain(r.error) ==> Unpublished(dir.disk, pending.key))
  {
    ghost var s := dir.Now();
    ReachesSelf(s);
    var k := pending.key;
    var _ :- ChildStart(session, agent, pending, proof);
    var active :- ActiveLocked(dir, loaded, nonce);
    assert Progress(s, s, k);
    var prepared :- PrepareChild(dir.disk, active, pending, proof);
    assert KeyInv(s, k);
    r := PublishChild(dir, active, k, CurrentPending(dir.disk, pending).value, prepared, proof.cwd, record, actual);
    ProgressKeepsStranded(s, dir.Now(), k);
    SameParent(s.disk, dir.disk, active, proof);
  }

  // ---- readers -------------------------------------------------------------------------

  /** Read the only usable snapshot of a session. */
  method ReadSession(dir: PrivateDirectory, session: string, cwd: Cwd, loaded: Option<Config>, nonce: Uuid)
    returns (r: Res<Snapshot>)
    requires Inv(dir.Now()) && Unused(dir.Now(), nonce)
    modifies dir
    ensures Issues(old(dir.Now()), dir.Now(), {nonce})
    ensures StrandedKept(old(dir.disk), dir.disk)
    ensures Reaches(old(dir.Now()), dir.Now())
    ensures SessionKey(session).Success? ==>
              if CheckActive(old(dir.disk), loaded).Success?
              then r == ReadSnapshot(old(dir.disk), CheckActive(old(dir.disk), loaded).value, Root(session), cwd) &&
                dir.Now() == old(dir.Now())
              else r.Failure? && ActiveRefused(old(dir.Now()), dir.Now(), loaded, nonce, r.error)
    ensures SessionKey(session).Failure? ==> r == Failure(SessionInvalid) && dir.Now() == old(dir.Now())
  {
    ReachesSelf(dir.Now());
    var k :- SessionKey(session);
    var active :- ActiveLocked(dir, loaded, nonce);
    return ReadSnapshot(dir.disk, active, k, cwd);
  }

  /** Capture the direct-parent authority a child is published from. */
  method CaptureSession(dir: PrivateDirectory, session: string, cwd: Cwd, loaded: Option<Config>, nonce: Uuid)
    returns (r: Res<ParentProof>)
    requires Inv(dir.Now()) && Unused(dir.Now(), nonce)
    modifies dir
    ensures Issues(old(dir.Now()), dir.Now(), {nonce})
    ensures StrandedKept(old(dir.disk), dir.disk)
    ensures Reaches(old(dir.Now()), dir.Now())
    ensures r.Success? ==>
              && dir.Now() == old(dir.Now()) && CheckActive(dir.disk, loaded).Success?
              && r == CaptureParent(dir.disk, CheckActive(dir.disk, loaded).value, session, cwd)
              && ValidateParent(dir.disk, CheckActive(dir.disk, loaded).value, r.value).Success?
    ensures SessionKey(session).Failure? ==> r == Failure(SessionInvalid) && dir.Now() == old(dir.Now())
    ensures SessionKey(session).Success? ==>
              if CheckActive(old(dir.disk), loaded).Success?
              then r == CaptureParent(old(dir.disk), CheckActive(old(dir.disk), loaded).value, session, cwd)
                   && dir.Now() == old(dir.Now())
              else r.Failure? && ActiveRefused(old(dir.Now()), dir.Now(), loaded, nonce, r.error)
  {
    ReachesSelf(dir.Now());
    var k :- SessionKey(session);
    var active :- ActiveLocked(dir, loaded, nonce);
    return CaptureParent(dir.disk, active, session, cwd);
  }

  /** Read a child against a parent proof captured before the locks were taken again. */
  method ReadChildSession(dir: PrivateDirectory, proof: ParentProof, session: string, agent: string, cwd: Cwd,
                          loaded: Option<Config>, nonce: Uuid) returns (r: Res<Snapshot>)
    requires Inv(dir.Now()) && Unused(dir.Now(), nonce)
    modifies dir
    ensures Issues(old(dir.Now()), dir.Now(), {nonce})
    ensures StrandedKept(old(dir.disk), dir.disk)
    ensures Reaches(old(dir.Now()), dir.Now())
    ensures if CheckActive(old(dir.disk), loaded).Success?
            then r == ReadChild(old(dir.disk), CheckActive(old(dir.disk), loaded).value, proof,
                                Child(session, agent), cwd)
                 && dir.Now() == old(dir.Now())
            else r.Failure? && ActiveRefused(old(dir.Now()), dir.Now(), loaded, nonce, r.error)
  {
    ReachesSelf(dir.Now());
    var active :- ActiveLocked(dir, loaded, nonce);
    return ReadChild(dir.disk, active, proof, Child(session, agent), cwd);
  }
}
