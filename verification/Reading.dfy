/** The checked readers: every decision the hook store takes from the records it finds. */
module Reading {
  import opened Wrappers
  import opened Records

  // ---- installation --------------------------------------------------------------------

  predicate ManifestShape(m: Manifest) {
    m.nonce != NIL && (m.lifecycle == Active <==> m.config.Some?)
  }

  function ReadManifest(d: Disk): Res<Manifest> {
    if d.manifest.None? || !ManifestShape(d.manifest.value) then Failure(InstallationInvalid)
    else Success(d.manifest.value)
  }

  function ReadActivation(d: Disk): Res<ActivationJournal> {
    if d.activation.None? || d.activation.value.nonce == NIL then Failure(InstallationInvalid)
    else Success(d.activation.value)
  }

  function CleanManifest(d: Disk): Res<Manifest> {
    var manifest :- ReadManifest(d);
    var journal :- ReadActivation(d);
    if journal.epoch != manifest.epoch || journal.nonce != manifest.nonce then Failure(InstallationInvalid)
    else if !journal.resolved then Failure(InstallationInactive)
    else Success(manifest)
  }

  /** The epoch and nonce of an Active installation. */
  function EpochLocked(d: Disk): Res<(nat, Uuid)> {
    var manifest :- CleanManifest(d);
    if manifest.lifecycle != Active then Failure(InstallationInactive)
    else Success((manifest.epoch, manifest.nonce))
  }

  // ---- heads ---------------------------------------------------------------------------

  function VersionOf(k: Key): nat {
    if k.Root? then 1 else 2
  }

  predicate Published(state: DeliveryState) {
    state == Prepared || state == Emitted
  }

  predicate ValidLineage(k: Key, lineage: Lineage) {
    lineage.parent != k && lineage.nonce != NIL && lineage.generation != NIL && lineage.sequence != 0
  }

  predicate ValidHead(k: Key, h: Head) {
    && (h.version == 1 || h.version == 2)
    && h.nonce != NIL && h.generation != NIL && h.sequence != 0
    && (h.version == 1 ==> h.lineage.None?)
    && (h.version == 2 && Published(h.state) ==> h.lineage.Some?)
    && (h.lineage.Some? ==> ValidLineage(k, h.lineage.value))
    && (if Published(h.state) then h.binding.Some? && h.evidence.Some? else h.evidence.None?)
  }

  /** The head of a key, `None` when it has neither head nor journal. */
  function ReadHead(d: Disk, k: Key): Res<Option<Head>> {
    if k !in d.heads && k !in d.journals then Success(None)
    else if k !in d.heads || k !in d.journals then Failure(SnapshotInvalid)
    else
      var head := d.heads[k];
      var journal := d.journals[k];
      if !ValidHead(k, head) then Failure(SnapshotInvalid)
      else if journal.generation != head.generation || journal.sequence != head.sequence || !journal.resolved then
        Failure(SnapshotInvalid)
      else Success(Some(head))
  }

  function ReadPresentHead(d: Disk, k: Key): Res<Head> {
    var head :- ReadHead(d, k);
    if head.None? then Failure(SnapshotInvalid) else Success(head.value)
  }

  predicate IsPending(h: Head, p: PendingGeneration) {
    h.epoch == p.epoch && h.nonce == p.nonce && h.generation == p.generation && h.sequence == p.sequence &&
      h.state == Pending
  }

  function CurrentPending(d: Disk, p: PendingGeneration): Res<Head> {
    var head :- ReadHead(d, p.key);
    if head.None? || !IsPending(head.value, p) then Failure(SessionStale) else Success(head.value)
  }

  // ---- guards --------------------------------------------------------------------------

  predicate ValidGuard(h: Head, g: Guard) {
    && g.epoch == h.epoch && g.nonce == h.nonce && g.generation == h.generation && g.sequence == h.sequence
    && (g.state == Checking || g.state == Completed <==> g.attempt.Some?)
    && g.attempt != Some(NIL)
  }

  function ReadGuard(d: Disk, k: Key, h: Head): Res<Guard> {
    if k !in d.guards || k !in d.guardJournals then Failure(SnapshotInvalid)
    else
      var guard := d.guards[k];
      var journal := d.guardJournals[k];
      if !ValidGuard(h, guard) then Failure(SnapshotInvalid)
      else if journal.generation != guard.generation || journal.sequence != guard.sequence
              || journal.attempt != guard.attempt || !journal.resolved then Failure(SnapshotInvalid)
      else Success(guard)
  }

  // ---- published snapshots -------------------------------------------------------------

  /** The recorded working directory of a published head. */
  function ReadPlace(d: Disk, config: Config, k: Key, h: Head): Res<Cwd> {
    if k !in d.places then Failure(SnapshotInvalid)
    else
      var place := d.places[k];
      if place.epoch != h.epoch || place.nonce != h.nonce || place.generation != h.generation
         || place.sequence != h.sequence || h.binding != Some(place.binding) then Failure(SnapshotInvalid)
      else
        var binding :- config.Resolve(place.cwd);
        if binding != place.binding then Failure(SnapshotInvalid) else Success(place.cwd)
  }

  /** The fields a payload shares with its head, and the output it stands for. */
  predicate PayloadMatches(k: Key, h: Head, p: Payload) {
    && p.version == h.version && p.key == k && p.epoch == h.epoch && p.nonce == h.nonce
    && p.generation == h.generation && p.sequence == h.sequence
    && h.binding == Some(p.binding) && p.lineage == h.lineage
    && h.evidence.Some? && h.evidence.value.output == p.output
    && p.output == Output(EventOf(p.version), p.pack)
  }

  function CheckPayload(d: Disk, root: nat, k: Key, h: Head, binding: Binding): Res<Pack> {
    if h.evidence.None? then Failure(SnapshotInvalid)
    else
      var evidence := h.evidence.value;
      var name := PayloadName(root, k, h.generation);
      if name !in d.payloads || d.payloads[name] != evidence.payload then Failure(SnapshotInvalid)
      else
        var payload := d.payloads[name];
        if !PayloadMatches(k, h, payload) || payload.binding != binding then Failure(SnapshotInvalid)
        else if !payload.pack.ValidFor(binding) then Failure(SnapshotInvalid)
        else Success(payload.pack)
  }

  /** With a gate configured, only an Idle or Completed guard lets a snapshot be read. */
  function ReadGate(d: Disk, active: ActiveInstallation, k: Key, h: Head): Res<()> {
    if active.config.gate.None? then Success(())
    else
      var guard :- ReadGuard(d, k, h);
      if guard.state == Idle || guard.state == Completed then Success(()) else Failure(SnapshotInvalid)
  }

  function ReadSnapshot(d: Disk, active: ActiveInstallation, k: Key, cwd: Cwd): Res<Snapshot> {
    var head :- ReadPresentHead(d, k);
    if head.epoch != active.epoch || head.nonce != active.nonce || head.state != Emitted then Failure(SnapshotInvalid)
    else
      var gate :- ReadGate(d, active, k, head);
      var binding :- active.config.Resolve(cwd);
      var pack :- CheckPayload(d, active.config.root, k, head, binding);
      Success(Snapshot(pack, head.epoch, head.generation, binding))
  }

  // ---- parents and children ------------------------------------------------------------

  function CaptureParent(d: Disk, active: ActiveInstallation, session: string, cwd: Cwd): Res<ParentProof> {
    var k := Root(session);
    var head :- ReadPresentHead(d, k);
    if head.version != 1 then Failure(SnapshotInvalid)
    else
      var place :- ReadPlace(d, active.config, k, head);
      if place != cwd then Failure(SnapshotInvalid)
      else
        var snapshot :- ReadSnapshot(d, active, k, cwd);
        Success(ParentProof(Lineage(k, head.epoch, head.nonce, head.generation, head.sequence, snapshot.binding),
                            snapshot.pack, cwd))
  }

  predicate IsParent(h: Head, lineage: Lineage) {
    && h.version == 1 && h.epoch == lineage.epoch && h.nonce == lineage.nonce && h.generation == lineage.generation
    && h.sequence == lineage.sequence && h.binding == Some(lineage.binding)
  }

  function ValidateParent(d: Disk, active: ActiveInstallation, proof: ParentProof): Res<()> {
    var head :- ReadPresentHead(d, proof.lineage.parent);
    if !IsParent(head, proof.lineage) then Failure(SnapshotInvalid)
    else
      var place :- ReadPlace(d, active.config, proof.lineage.parent, head);
      if place != proof.cwd then Failure(SnapshotInvalid)
      else
        var snapshot :- ReadSnapshot(d, active, proof.lineage.parent, proof.cwd);
        if snapshot.pack != proof.pack || snapshot.binding != proof.lineage.binding then Failure(SnapshotInvalid)
        else Success(())
  }

  /** Read a child against a parent proof captured earlier. */
  function ReadChild(d: Disk, active: ActiveInstallation, proof: ParentProof, k: Key, cwd: Cwd): Res<Snapshot> {
    var parent :- ValidateParent(d, active, proof);
    var head :- ReadPresentHead(d, k);
    if head.version != 2 || head.lineage != Some(proof.lineage) then Failure(SnapshotInvalid)
    else
      var snapshot :- ReadSnapshot(d, active, k, cwd);
      if snapshot.pack != proof.pack then Failure(SnapshotInvalid) else Success(snapshot)
  }

  // ---- checks --------------------------------------------------------------------------

  /** The parent and the head a claim or a finish works on. */
  function CheckedHead(d: Disk, active: ActiveInstallation, k: Key, parent: Option<ParentProof>): Res<()> {
    if parent.None? then Success(())
    else if parent.value.lineage.parent == k then Failure(SnapshotInvalid)
    else ValidateParent(d, active, parent.value)
  }

  predicate RightLineage(h: Head, parent: Option<ParentProof>) {
    if parent.Some? then h.version == 2 && h.lineage == Some(parent.value.lineage) else h.version == 1
  }

  /** What a finish re-establishes before it lets its evidence be recorded. */
  function FinishCheck(d: Disk, active: ActiveInstallation, claim: ClaimedCheck): Res<()> {
    if active.epoch != claim.epoch || active.nonce != claim.nonce then Failure(SessionStale)
    else
      var parent :- CheckedHead(d, active, claim.key, claim.parent);
      var head :- ReadPresentHead(d, claim.key);
      if head.epoch != claim.epoch || head.nonce != claim.nonce || head.sequence != claim.sequence
         || head.generation != claim.generation || head.state != Emitted || !RightLineage(head, claim.parent) then
        Failure(SessionStale)
      else
        var guard :- ReadGuard(d, claim.key, head);
        if guard.state != Checking || guard.attempt != Some(claim.attempt) then Failure(SessionStale)
        else
          var binding :- active.config.Resolve(claim.cwd);
          if binding != claim.binding then Failure(SessionStale)
          else
            var pack :- CheckPayload(d, active.config.root, claim.key, head, binding);
            if pack != claim.pack then Failure(SnapshotInvalid) else Success(())
  }
}
