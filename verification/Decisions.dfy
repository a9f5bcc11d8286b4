/** Every decision of the hook store, stated on the records it is taken from: exactly what is accepted, and as what. */
module Decisions {
  import opened Wrappers
  import opened Records
  import opened Reading
  import opened Protocol
  import opened Invariants
  import opened Safety
  import opened Installation
  import opened Sessions
  import opened Publishing

  // ---- installation --------------------------------------------------------------------

  lemma CleanIsExact(d: Disk, m: Manifest)
    ensures CleanManifest(d) == Success(m) <==>
              && d.manifest == Some(m) && m.nonce != NIL && (m.lifecycle == Active <==> m.config.Some?)
              && d.activation.Some? && d.activation.value.resolved
              && d.activation.value.epoch == m.epoch && d.activation.value.nonce == m.nonce
  {
  }

  lemma AuthorityIsExact(d: Disk, epoch: nat, nonce: Uuid)
    ensures EpochLocked(d) == Success((epoch, nonce)) <==>
              exists config: Config :: CleanManifest(d) == Success(Manifest(epoch, nonce, Active, Some(config)))
  {
    if EpochLocked(d) == Success((epoch, nonce)) {
      var m := CleanManifest(d).value;
      assert m == Manifest(epoch, nonce, Active, Some(m.config.value));
    }
  }

  /** Where activation, retirement and poisoning may start from a clean manifest, and what they move to. */
  lemma StartsAreExact(d: Disk, m: Manifest, nonce: Uuid)
    requires CleanManifest(d) == Success(m)
    ensures ActivationStart(d, nonce)
            == if m.lifecycle == Retired then Failure(InstallationInactive)
               else if m.epoch >= U64_MAX then Failure(InstallationInvalid)
               else Success(Manifest(m.epoch + 1, nonce, Changing, None))
    ensures RetirementStart(d, nonce)
            == if m.lifecycle == Retired then Failure(InstallationInactive)
               else if m.epoch >= U64_MAX then Failure(InstallationInvalid)
               else Success(Manifest(m.epoch + 1, nonce, Retired, None))
    ensures PoisonManifest(d, nonce)
            == if m.epoch >= U64_MAX then Failure(InstallationInvalid)
               else Success(Manifest(m.epoch + 1, nonce, Changing, None))
  {
  }

  /** What the repair of a reachable anchor moves to: one epoch past its journal, never Active. */
  lemma RepairIsExact(s: World, nonce: Uuid)
    requires Inv(s) && RepairManifest(s.disk, nonce).Success?
    ensures var journal := s.disk.activation.value;
            RepairManifest(s.disk, nonce).value
            == Manifest(journal.epoch + 1, nonce, if journal.kind == Retirement then Retired else Changing, None)
  {
  }

  /** Authority is refused for what the anchor is, and for any other configuration than the stored one. */
  lemma RefusalsAreExact(d: Disk, loaded: Option<Config>)
    ensures CheckActive(d, loaded).Success? <==>
              exists m: Manifest :: CleanManifest(d) == Success(m) && m.lifecycle == Active && loaded == m.config
    ensures CleanManifest(d).Success? && CleanManifest(d).value.lifecycle != Active ==>
              CheckActive(d, loaded) == Failure(InstallationInactive)
    ensures CleanManifest(d).Failure? ==> CheckActive(d, loaded) == Failure(CleanManifest(d).error)
    ensures CleanManifest(d).Failure? && d.manifest.Some? && ManifestShape(d.manifest.value) && d.activation.Some?
            && d.activation.value == ActivationJournal(d.manifest.value.epoch, d.manifest.value.nonce,
                                                       d.activation.value.kind, false) ==>
              CleanManifest(d) == Failure(InstallationInactive)
  {
  }

  // ---- sessions ------------------------------------------------------------------------

  /** In a reachable store a begin needs an Active epoch and a readable or absent head that can still count. */
  lemma BeginIsExact(s: World, k: Key, generation: Uuid, h: Head)
    requires Inv(s)
    ensures BeginHead(s.disk, k, generation) == Success(h) <==>
              && EpochLocked(s.disk) == Success((h.epoch, h.nonce)) && ReadHead(s.disk, k).Success?
              && var previous := ReadHead(s.disk, k).value;
                 && (previous.Some? ==> previous.value.sequence < U64_MAX)
                 && h == Head(if k.Root? then 1 else 2, h.epoch, h.nonce, generation,
                              if previous.Some? then previous.value.sequence + 1 else 1, Pending, None, None, None)
  {
    assert KeyInv(s, k);
  }

  /** What the repair of a session writes. */
  lemma SessionRepairIsExact(d: Disk, session: string, generation: Uuid)
    requires RepairHead(d, session, generation).Success?
    ensures EpochLocked(d).Success? && Root(session) in d.journals
    ensures RepairHead(d, session, generation).value
            == Head(1, EpochLocked(d).value.0, EpochLocked(d).value.1, generation,
                    d.journals[Root(session)].sequence + 1, Pending, None, None, None)
  {
  }

  /** A head is read exactly when it is valid and its own journal is closed. */
  lemma HeadIsExact(d: Disk, k: Key, h: Head)
    ensures ReadPresentHead(d, k) == Success(h) <==>
              && k in d.heads && d.heads[k] == h && ValidHead(k, h)
              && k in d.journals && d.journals[k] == SessionJournal(h.generation, h.sequence, true)
    ensures ReadHead(d, k) == Success(None) <==> k !in d.heads && k !in d.journals
    ensures ReadHead(d, k) == Success(Some(h)) <==> ReadPresentHead(d, k) == Success(h)
  {
  }

  /** A head is valid when its fields fit its version and its state. */
  lemma ValidIsExact(k: Key, h: Head)
    ensures ValidHead(k, h) <==>
              && h.version in {1, 2} && h.nonce != NIL && h.generation != NIL && h.sequence > 0
              && (h.lineage.Some? ==>
                    && h.version == 2 && h.lineage.value.parent != k && h.lineage.value.nonce != NIL
                    && h.lineage.value.generation != NIL && h.lineage.value.sequence > 0)
              && (if h.state in {Prepared, Emitted}
                  then h.binding != None && h.evidence != None && (h.version == 2 ==> h.lineage != None)
                  else h.evidence == None)
  {
  }

  /** A guard is read exactly when it is of this head, has an attempt if it needs one, and its journal is closed. */
  lemma GuardIsExact(d: Disk, k: Key, h: Head, g: Guard)
    ensures ReadGuard(d, k, h) == Success(g) <==>
              && k in d.guards && d.guards[k] == g
              && k in d.guardJournals && d.guardJournals[k] == GuardJournal(g.generation, g.sequence, g.attempt, true)
              && g.epoch == h.epoch && g.nonce == h.nonce && g.generation == h.generation && g.sequence == h.sequence
              && (if g.state in {Checking, Completed} then g.attempt != None && g.attempt != Some(NIL)
                   else g.attempt == None)
  {
  }

  /** What belongs to an earlier epoch, or is no longer pending, is refused as stale. */
  lemma StaleIsRefused(d: Disk, active: ActiveInstallation, p: PendingGeneration, cwd: Cwd, pack: Pack,
                       proof: ParentProof)
    ensures p.epoch != active.epoch || p.nonce != active.nonce ==>
              && BoundHead(d, active, p, cwd) == Failure(SessionStale)
              && PrepareSession(d, active, p, cwd, pack) == Failure(SessionStale)
              && PrepareChild(d, active, p, proof) == Failure(SessionStale)
    ensures ReadHead(d, p.key).Success? && CurrentPending(d, p).Failure? ==>
              CurrentPending(d, p) == Failure(SessionStale)
  {
  }

  lemma PendingIsExact(d: Disk, p: PendingGeneration, h: Head)
    ensures CurrentPending(d, p) == Success(h) <==>
              && ReadHead(d, p.key) == Success(Some(h)) && h.state == Pending
              && PendingGeneration(p.key, h.epoch, h.nonce, h.generation, h.sequence) == p
  {
  }

  lemma BoundIsExact(d: Disk, active: ActiveInstallation, p: PendingGeneration, cwd: Cwd, h: Head)
    ensures BoundHead(d, active, p, cwd) == Success(h) <==>
              && p.epoch == active.epoch && p.nonce == active.nonce && cwd in active.config.scopes
              && CurrentPending(d, p).Success?
              && h == CurrentPending(d, p).value.(binding := Some(active.config.scopes[cwd]))
  {
  }

  // ---- snapshots -----------------------------------------------------------------------

  /** A closed guard of this very head that is Idle or Completed. */
  predicate GuardAllows(d: Disk, k: Key, h: Head) {
    && k in d.guards && k in d.guardJournals
    && var g := d.guards[k];
       && d.guardJournals[k] == GuardJournal(g.generation, g.sequence, g.attempt, true)
       && g.epoch == h.epoch && g.nonce == h.nonce && g.generation == h.generation && g.sequence == h.sequence
       && ((g.state == Idle && g.attempt == None) ||
            (g.state == Completed && g.attempt.Some? && g.attempt != Some(NIL)))
  }

  /** The records of a closed, current, Emitted head with this payload. */
  predicate SnapshotStands(d: Disk, active: ActiveInstallation, k: Key, cwd: Cwd, payload: Payload) {
    && k in d.heads && k in d.journals
    && var h := d.heads[k];
       && ValidHead(k, h) && d.journals[k] == SessionJournal(h.generation, h.sequence, true)
       && h.state == Emitted && h.epoch == active.epoch && h.nonce == active.nonce
       && (active.config.gate.Some? ==> GuardAllows(d, k, h))
       && cwd in active.config.scopes
       && PayloadName(active.config.root, k, h.generation) in d.payloads
       && d.payloads[PayloadName(active.config.root, k, h.generation)] == payload
       && h.evidence == Some(Evidence(payload, payload.output))
       && payload == Payload(h.version, k, h.epoch, h.nonce, h.generation, h.sequence,
                             active.config.scopes[cwd], h.lineage,
                             Output(if h.version == 1 then SessionStart else SubagentStart, payload.pack),
                             payload.pack)
       && h.binding == Some(active.config.scopes[cwd])
       && payload.pack.sound && payload.pack.project == active.config.scopes[cwd].project
       && payload.pack.context == active.config.scopes[cwd].context
  }

  /** A snapshot is read exactly from such records, and it is what they hold. */
  lemma SnapshotIsExact(d: Disk, active: ActiveInstallation, k: Key, cwd: Cwd, s: Snapshot)
    ensures ReadSnapshot(d, active, k, cwd) == Success(s) <==>
              exists payload: Payload ::
                && SnapshotStands(d, active, k, cwd, payload)
                && s == Snapshot(payload.pack, active.epoch, d.heads[k].generation, active.config.scopes[cwd])
  {
    if ReadSnapshot(d, active, k, cwd) == Success(s) {
      var payload := d.heads[k].evidence.value.payload;
      assert SnapshotStands(d, active, k, cwd, payload);
    }
  }

  lemma PlaceIsExact(d: Disk, config: Config, k: Key, h: Head, cwd: Cwd)
    ensures ReadPlace(d, config, k, h) == Success(cwd) <==>
              && k in d.places && cwd in config.scopes && h.binding == Some(config.scopes[cwd])
              && d.places[k] == Place(h.epoch, h.nonce, h.generation, h.sequence, config.scopes[cwd], cwd)
  {
  }

  /** What a refused read reports: an unmapped directory, or an invalid snapshot. */
  lemma RefusedReads(d: Disk, active: ActiveInstallation, k: Key, cwd: Cwd, h: Head)
    ensures ReadHead(d, k).Failure? ==> ReadHead(d, k).error == SnapshotInvalid
    ensures ReadGuard(d, k, h).Failure? ==> ReadGuard(d, k, h).error == SnapshotInvalid
    ensures ReadSnapshot(d, active, k, cwd).Failure? ==>
              || ReadSnapshot(d, active, k, cwd).error == SnapshotInvalid
              || (ReadSnapshot(d, active, k, cwd).error == IdentityUnmapped && cwd !in active.config.scopes)
    ensures ReadHead(d, k) == Success(None) ==> ReadSnapshot(d, active, k, cwd) == Failure(SnapshotInvalid)
  {
  }

  // ---- parents and children ------------------------------------------------------------

  lemma CaptureIsExact(d: Disk, active: ActiveInstallation, session: string, cwd: Cwd, proof: ParentProof)
    ensures CaptureParent(d, active, session, cwd) == Success(proof) <==>
              && ReadPresentHead(d, Root(session)).Success?
              && var h := ReadPresentHead(d, Root(session)).value;
                 && h.version == 1 && ReadPlace(d, active.config, Root(session), h) == Success(cwd)
                 && ReadSnapshot(d, active, Root(session), cwd)
                    == Success(Snapshot(proof.pack, h.epoch, h.generation, proof.lineage.binding))
                 && proof.cwd == cwd
                 && proof.lineage == Lineage(Root(session), h.epoch, h.nonce, h.generation, h.sequence,
                                             proof.lineage.binding)
  {
  }

  lemma ParentIsExact(d: Disk, active: ActiveInstallation, proof: ParentProof)
    ensures ValidateParent(d, active, proof).Success? <==>
              && ReadPresentHead(d, proof.lineage.parent).Success?
              && var h := ReadPresentHead(d, proof.lineage.parent).value;
                 && h.version == 1 && h.binding == Some(proof.lineage.binding)
                 && proof.lineage == Lineage(proof.lineage.parent, h.epoch, h.nonce, h.generation, h.sequence,
                                             proof.lineage.binding)
                 && ReadPlace(d, active.config, proof.lineage.parent, h) == Success(proof.cwd)
                 && ReadSnapshot(d, active, proof.lineage.parent, proof.cwd)
                    == Success(Snapshot(proof.pack, h.epoch, h.generation, proof.lineage.binding))
  {
  }

  lemma ReadChildIsExact(d: Disk, active: ActiveInstallation, proof: ParentProof, k: Key, cwd: Cwd, s: Snapshot)
    ensures ReadChild(d, active, proof, k, cwd) == Success(s) <==>
              && ValidateParent(d, active, proof).Success? && ReadPresentHead(d, k).Success?
              && ReadPresentHead(d, k).value.version == 2 && ReadPresentHead(d, k).value.lineage == Some(proof.lineage)
              && ReadSnapshot(d, active, k, cwd) == Success(s) && s.pack == proof.pack
  {
  }

  // ---- publication ---------------------------------------------------------------------

  /** A session may be published exactly from its current pending head, bound to this directory, with a fitting pack. */
  lemma PrepareSessionIsExact(d: Disk, active: ActiveInstallation, p: PendingGeneration, cwd: Cwd, pack: Pack, h: Head)
    ensures PrepareSession(d, active, p, cwd, pack) == Success(h) <==>
              && p.epoch == active.epoch && p.nonce == active.nonce && CurrentPending(d, p).Success?
              && cwd in active.config.scopes
              && var pending, binding := CurrentPending(d, p).value, active.config.scopes[cwd];
                 && pending.binding == Some(binding)
                 && pack.sound && pack.project == binding.project && pack.context == binding.context
                 && var output := Output(SessionStart, pack);
                    h == pending.(state := Prepared,
                                  evidence := Some(Evidence(
                                    Payload(1, p.key, p.epoch, p.nonce, p.generation, p.sequence,
                                            binding, None, output, pack),
                                    output)))
  {
  }

  /** A child likewise, with its validated parent's binding and pack. */
  lemma PrepareChildIsExact(d: Disk, active: ActiveInstallation, p: PendingGeneration, proof: ParentProof, h: Head)
    ensures PrepareChild(d, active, p, proof) == Success(h) <==>
              && p.epoch == active.epoch && p.nonce == active.nonce && CurrentPending(d, p).Success?
              && ValidateParent(d, active, proof).Success? && proof.cwd in active.config.scopes
              && var pending, binding, pack := CurrentPending(d, p).value, active.config.scopes[proof.cwd], proof.pack;
                 && pending.version == 2 && pending.binding == Some(binding) && proof.lineage.binding == binding
                 && pack.sound && pack.project == binding.project && pack.context == binding.context
                 && var output := Output(SubagentStart, pack);
                    h == pending.(state := Prepared, lineage := Some(proof.lineage),
                                  evidence := Some(Evidence(
                                    Payload(2, p.key, p.epoch, p.nonce, p.generation, p.sequence,
                                            binding, Some(proof.lineage), output, pack),
                                    output)))
  {
  }

  lemma ChildStartIsExact(session: string, agent: string, p: PendingGeneration, proof: ParentProof)
    ensures ChildStart(session, agent, p, proof).Success? <==>
              && p.key == Child(session, agent) && proof.lineage.parent == Root(session)
              && 0 < |session| <= 1024 && proof.pack.sound
  {
  }

  // ---- checks --------------------------------------------------------------------------

  /** A finish is accepted exactly if the claimed head is current, its guard checks this attempt, and nothing moved. */
  lemma FinishIsExact(d: Disk, active: ActiveInstallation, claim: ClaimedCheck)
    ensures FinishCheck(d, active, claim).Success? <==>
              && claim.epoch == active.epoch && claim.nonce == active.nonce
              && (claim.parent.Some? ==>
                    claim.parent.value.lineage.parent != claim.key &&
                      ValidateParent(d, active, claim.parent.value).Success?)
              && ReadPresentHead(d, claim.key).Success?
              && var h := ReadPresentHead(d, claim.key).value;
                 && h.epoch == claim.epoch && h.nonce == claim.nonce && h.sequence == claim.sequence
                 && h.generation == claim.generation && h.state == Emitted
                 && (match claim.parent
                     case None => h.version == 1
                     case Some(proof) => h.version == 2 && h.lineage == Some(proof.lineage))
                 && ReadGuard(d, claim.key, h)
                    == Success(Guard(h.epoch, h.nonce, h.generation, h.sequence, Checking, Some(claim.attempt)))
                 && claim.cwd in active.config.scopes && active.config.scopes[claim.cwd] == claim.binding
                 && CheckPayload(d, active.config.root, claim.key, h, claim.binding) == Success(claim.pack)
  {
  }
}
