/** Monotonic activation, retirement, repair and poisoning of the installation authority. */
module Installation {
  import opened Wrappers
  import opened Records
  import opened Reading
  import opened Protocol
  import opened Invariants
  import opened State
  import opened Registers
  import opened Preservation
  import opened Safety
  import opened Stranding

  /** A fresh identifier, not stored anywhere yet. */
  ghost predicate Unused(s: World, id: Uuid) {
    id != NIL && id !in s.hist.issued
  }

  /** No identifier but these was issued in between. */
  ghost predicate Issues(s: World, t: World, ids: set<Uuid>) {
    t.hist.issued <= s.hist.issued + ids
  }

  lemma ManifestIssues(s: World, t: World, m: Manifest, kind: TransitionKind, r: Res<()>)
    requires ManifestRewrote(s, t, m, kind, r)
    ensures s.hist.issued <= t.hist.issued && Issues(s, t, {m.nonce})
  {
  }

  lemma HeadIssues(s: World, t: World, k: Key, h: Head, r: Res<()>)
    requires HeadRewrote(s, t, k, h, r)
    ensures s.hist.issued <= t.hist.issued && Issues(s, t, {h.generation})
  {
  }

  lemma GuardIssues(s: World, t: World, k: Key, g: Guard, r: Res<()>)
    requires GuardRewrote(s, t, k, g, r)
    ensures s.hist.issued <= t.hist.issued && Issues(s, t, if g.attempt.Some? then {g.attempt.value} else {})
  {
  }

  function NextManifest(previous: Manifest, lifecycle: Lifecycle, nonce: Uuid): Res<Manifest> {
    if previous.epoch >= U64_MAX then Failure(InstallationInvalid)
    else Success(Manifest(previous.epoch + 1, nonce, lifecycle, None))
  }

  method Transition(dir: PrivateDirectory, m: Manifest, kind: TransitionKind) returns (r: Res<()>)
    modifies dir
    ensures old(dir.faults) <= dir.faults && (r.Success? <==> dir.faults == old(dir.faults))
    ensures ManifestRewrote(old(dir.Now()), dir.Now(), m, kind, r)
  {
    r := dir.Rewrite(OpenActivation(m, kind), PutManifest(m), CloseActivation(m, kind));
  }

  /** Provision a new anchor: epoch 0, Changing, without a configuration. */
  method Initialize(dir: PrivateDirectory, nonce: Uuid) returns (r: Res<()>)
    requires dir.Now() == FRESH_WORLD && nonce != NIL
    modifies dir
    ensures old(dir.faults) <= dir.faults && (r.Success? <==> dir.faults == old(dir.faults))
    ensures StrandedKept(old(dir.disk), dir.disk)
    ensures Issues(old(dir.Now()), dir.Now(), {nonce})
    ensures Reaches(old(dir.Now()), dir.Now())
    ensures ManifestRewrote(old(dir.Now()), dir.Now(), Manifest(0, nonce, Changing, None), Activation, r)
  {
    var manifest := Manifest(0, nonce, Changing, None);
    r := Transition(dir, manifest, Activation);
    ManifestRewriteReaches(old(dir.Now()), dir.Now(), manifest, Activation, r);
    ManifestIssues(old(dir.Now()), dir.Now(), manifest, Activation, r);
  }

  /** From a clean manifest, the next epoch in any lifecycle but Active is a protocol step. */
  lemma NextEpochReaches(s: World, t: World, previous: Manifest, m: Manifest, kind: TransitionKind, r: Res<()>)
    requires Inv(s) && CleanManifest(s.disk) == Success(previous)
    requires Unused(s, m.nonce) && m.epoch == previous.epoch + 1 && m.config.None?
    requires m.lifecycle == if kind == Retirement then Retired else Changing
    requires ManifestRewrote(s, t, m, kind, r)
    ensures Reaches(s, t) && Inv(t)
  {
    ManifestRewriteReaches(s, t, m, kind, r);
    ReachesKeeps(s, t);
  }

  /** What activation requires of the manifest it starts from. */
  function ActivationStart(d: Disk, nonce: Uuid): Res<Manifest> {
    var previous :- CleanManifest(d);
    if previous.lifecycle == Retired then Failure(InstallationInactive)
    else NextManifest(previous, Changing, nonce)
  }

  function RetirementStart(d: Disk, nonce: Uuid): Res<Manifest> {
    var previous :- CleanManifest(d);
    if previous.lifecycle == Retired then Failure(InstallationInactive)
    else NextManifest(previous, Retired, nonce)
  }

  function Saturating(n: nat): nat {
    if n >= U64_MAX then U64_MAX else n + 1
  }

  function Max(a: nat, b: nat): nat {
    if a < b then b else a
  }

  /** The manifest a repair moves to, always one epoch past everything visible. */
  function RepairManifest(d: Disk, nonce: Uuid): Res<Manifest> {
    var manifest :- ReadManifest(d);
    var journal :- ReadActivation(d);
    if journal.resolved then Failure(InstallationInvalid)
    else if journal.epoch < manifest.epoch || journal.epoch > Saturating(manifest.epoch)
            || (journal.epoch == manifest.epoch && journal.nonce != manifest.nonce) then Failure(InstallationInvalid)
    else
      var recovered :- NextManifest(manifest, if journal.kind == Activation then Changing else Retired, nonce);
      if Max(journal.epoch, manifest.epoch) >= U64_MAX then Failure(InstallationInvalid)
      else Success(recovered.(epoch := Max(journal.epoch, manifest.epoch) + 1))
  }

  method RepairIncomplete(dir: PrivateDirectory, nonce: Uuid) returns (r: Res<nat>)
    requires Inv(dir.Now()) && Unused(dir.Now(), nonce)
    modifies dir
    ensures old(dir.faults) <= dir.faults
    ensures dir.faults == old(dir.faults) ==> (r.Success? <==> RepairManifest(old(dir.disk), nonce).Success?)
    ensures Issues(old(dir.Now()), dir.Now(), {nonce})
    ensures StrandedKept(old(dir.disk), dir.disk)
    ensures Reaches(old(dir.Now()), dir.Now())
    ensures var repair := RepairManifest(old(dir.disk), nonce);
            if repair.Failure? then r == Failure(repair.error) && dir.Now() == old(dir.Now())
            else
              && ManifestRewrote(old(dir.Now()), dir.Now(), repair.value, old(dir.disk).activation.value.kind,
                                 if r.Success? then Success(()) else Failure(r.error))
              && (r.Success? ==> r.value == repair.value.epoch && CleanManifest(dir.disk) == Success(repair.value))
  {
    ghost var s := dir.Now();
    ReachesSelf(s);
    var recovered :- RepairManifest(dir.disk, nonce);
    var kind := dir.disk.activation.value.kind;
    var moved := Transition(dir, recovered, kind);
    ManifestIsFailStop(s, dir.Now(), recovered, kind, moved);
    ManifestIssues(s, dir.Now(), recovered, kind, moved);
    AnchorMoveKeeps(s.disk, dir.disk);
    ManifestRewriteReaches(s, dir.Now(), recovered, kind, moved);
    if moved.Failure? {
      return Failure(moved.error);
    }
    return Success(recovered.epoch);
  }

  /** The Changing manifest that replaces a clean one whose sessions can no longer be trusted. */
  function PoisonManifest(d: Disk, nonce: Uuid): Res<Manifest> {
    var current :- CleanManifest(d);
    NextManifest(current, Changing, nonce)
  }

  ghost predicate Poisoned(s: World, t: World, nonce: Uuid, r: Res<()>) {
    match PoisonManifest(s.disk, nonce)
    case Failure(e) => r == Failure(e) && t == s
    case Success(changing) =>
      && ManifestRewrote(s, t, changing, Activation, r)
      && (r.Success? ==> CleanManifest(t.disk) == Success(changing))
  }

  /** Poison without regard to the lifecycle of the current manifest. */
  method PoisonLocked(dir: PrivateDirectory, nonce: Uuid) returns (r: Res<()>)
    requires Inv(dir.Now()) && Unused(dir.Now(), nonce)
    modifies dir
    ensures old(dir.faults) <= dir.faults
    ensures dir.faults == old(dir.faults) ==> (r.Success? <==> PoisonManifest(old(dir.disk), nonce).Success?)
    ensures Issues(old(dir.Now()), dir.Now(), {nonce})
    ensures StrandedKept(old(dir.disk), dir.disk)
    ensures Reaches(old(dir.Now()), dir.Now()) && Inv(dir.Now())
    ensures Poisoned(old(dir.Now()), dir.Now(), nonce, r)
  {
    ghost var s := dir.Now();
    ReachesSelf(s);
    StrandedIsUnreadable(s.disk, Root(""));
    var current :- CleanManifest(dir.disk);
    var changing :- NextManifest(current, Changing, nonce);
    r := Transition(dir, changing, Activation);
    ManifestIsFailStop(s, dir.Now(), changing, Activation, r);
    ManifestIssues(s, dir.Now(), changing, Activation, r);
    AnchorMoveKeeps(s.disk, dir.disk);
    NextEpochReaches(s, dir.Now(), current, changing, Activation, r);
  }

  /** What the configuration file now says, as far as it loads, validates and names the same root. */
  function CheckActive(d: Disk, loaded: Option<Config>): Res<ActiveInstallation> {
    var manifest :- CleanManifest(d);
    if manifest.lifecycle != Active then Failure(InstallationInactive)
    else if loaded != manifest.config then Failure(InstallationMismatch)
    else Success(ActiveInstallation(manifest.config.value, manifest.epoch, manifest.nonce))
  }

  /** Authority is refused as it is found, but a mismatch is first committed as a new Changing epoch. */
  ghost predicate ActiveRefused(s: World, t: World, loaded: Option<Config>, nonce: Uuid, e: Error) {
    && CheckActive(s.disk, loaded).Failure?
    && if CheckActive(s.disk, loaded).error == InstallationMismatch
       then exists p :: Poisoned(s, t, nonce, p) && e == if p.Failure? then p.error else InstallationMismatch
       else t == s && e == CheckActive(s.disk, loaded).error
  }

  method ActiveLocked(dir: PrivateDirectory, loaded: Option<Config>, nonce: Uuid) returns (r: Res<ActiveInstallation>)
    requires Inv(dir.Now()) && Unused(dir.Now(), nonce)
    modifies dir
    ensures old(dir.faults) <= dir.faults
    ensures r.Success? ==> loaded == Some(r.value.config) && Usable(dir.disk, r.value)
    ensures forall a :: Usable(old(dir.disk), a) && loaded == Some(a.config) ==> r == Success(a)
    ensures forall m :: CleanManifest(old(dir.disk)) == Success(m) && m.lifecycle == Active && loaded != m.config ==>
              && r.Failure?
              && (dir.faults == old(dir.faults) && m.epoch < U64_MAX ==>
                    && r == Failure(InstallationMismatch)
                    && CleanManifest(dir.disk) == Success(Manifest(m.epoch + 1, nonce, Changing, None)))
    ensures Issues(old(dir.Now()), dir.Now(), {nonce})
    ensures StrandedKept(old(dir.disk), dir.disk)
    ensures Reaches(old(dir.Now()), dir.Now()) && Inv(dir.Now())
    ensures r.Success? ==> r == CheckActive(old(dir.disk), loaded) && dir.Now() == old(dir.Now())
    ensures r.Failure? ==> ActiveRefused(old(dir.Now()), dir.Now(), loaded, nonce, r.error)
  {
    ReachesSelf(dir.Now());
    var manifest :- CleanManifest(dir.disk);
    if manifest.lifecycle != Active {
      return Failure(InstallationInactive);
    }
    if loaded != manifest.config {
      var poisoned := PoisonLocked(dir, nonce);
      return Failure(if poisoned.Failure? then poisoned.error else InstallationMismatch);
    }
    return Success(ActiveInstallation(manifest.config.value, manifest.epoch, manifest.nonce));
  }

  // ---- a Retired anchor ----------------------------------------------------------------

  /** Activation, retirement, repair and the reload of a configuration leave a Retired anchor as it is. */
  lemma RetiredRefusesControl(d: Disk, nonce: Uuid, loaded: Option<Config>)
    requires CleanManifest(d).Success? && CleanManifest(d).value.lifecycle == Retired
    ensures ActivationStart(d, nonce) == Failure(InstallationInactive)
    ensures RetirementStart(d, nonce) == Failure(InstallationInactive)
    ensures RepairManifest(d, nonce) == Failure(InstallationInvalid)
    ensures CheckActive(d, loaded) == Failure(InstallationInactive)
  {
  }

  /**
   Poisoning does not look at the lifecycle: a Retired anchor whose epoch can still advance becomes
   Changing, and a later activation of it is accepted.
   */
  lemma PoisonReopensRetired(s: World, t: World, nonce: Uuid, next: Uuid)
    requires CleanManifest(s.disk).Success? && CleanManifest(s.disk).value.lifecycle == Retired
    requires CleanManifest(s.disk).value.epoch + 1 < U64_MAX
    requires nonce != NIL && Poisoned(s, t, nonce, Success(()))
    ensures CleanManifest(t.disk).Success? && CleanManifest(t.disk).value.lifecycle == Changing
    ensures ActivationStart(t.disk, next).Success?
  {
  }

  // ---- retirement, activation and their repair -----------------------------------------

  /** Exactly when a reachable installation can be repaired: unresolved, and at most one epoch ahead. */
  lemma RepairAccepts(s: World, nonce: Uuid)
    requires Inv(s)
    ensures RepairManifest(s.disk, nonce).Success? <==>
              && s.disk.manifest.Some? && !s.disk.activation.value.resolved
              && s.disk.activation.value.epoch <= s.disk.manifest.value.epoch + 1
              && s.disk.activation.value.epoch < U64_MAX
  {
  }

  /** The anchor is clean, or a repair of it is accepted. */
  ghost predicate Recoverable(d: Disk) {
    CleanManifest(d).Success? || forall nonce :: RepairManifest(d, nonce).Success?
  }

  /**
   One interruption of a transition from a clean manifest to its next epoch leaves a clean or a
   repairable anchor, and a repair moves past it.
   */
  lemma OneInterruptionIsRepairable(s: World, t: World, previous: Manifest, m: Manifest, kind: TransitionKind,
                                    r: Res<()>)
    requires Inv(s) && CleanManifest(s.disk) == Success(previous)
    requires Unused(s, m.nonce) && m.epoch == previous.epoch + 1 && m.epoch < U64_MAX && m.config.None?
    requires m.lifecycle == if kind == Retirement then Retired else Changing
    requires ManifestRewrote(s, t, m, kind, r)
    ensures Recoverable(t.disk)
    ensures forall nonce :: RepairManifest(t.disk, nonce).Success? ==>
              RepairManifest(t.disk, nonce).value.epoch > m.epoch
  {
    NextEpochReaches(s, t, previous, m, kind, r);
    forall nonce ensures CleanManifest(t.disk).Success? || RepairManifest(t.disk, nonce).Success? {
      RepairAccepts(t, nonce);
    }
  }

  method Retire(dir: PrivateDirectory, nonce: Uuid) returns (r: Res<nat>)
    requires Inv(dir.Now()) && Unused(dir.Now(), nonce)
    modifies dir
    ensures old(dir.faults) <= dir.faults
    ensures dir.faults == old(dir.faults) ==> (r.Success? <==> RetirementStart(old(dir.disk), nonce).Success?)
    ensures Issues(old(dir.Now()), dir.Now(), {nonce})
    ensures StrandedKept(old(dir.disk), dir.disk)
    ensures Reaches(old(dir.Now()), dir.Now())
    ensures var start := RetirementStart(old(dir.disk), nonce);
            if start.Failure? then r == Failure(start.error) && dir.Now() == old(dir.Now())
            else
              && ManifestRewrote(old(dir.Now()), dir.Now(), start.value, Retirement,
                   if r.Success? then Success(()) else Failure(r.error))
              && (r.Success? ==> r.value == start.value.epoch && CleanManifest(dir.disk) == Success(start.value))
              && (start.value.epoch < U64_MAX ==> Recoverable(dir.disk))
  {
    ghost var s := dir.Now();
    ReachesSelf(s);
    StrandedIsUnreadable(s.disk, Root(""));
    var previous :- CleanManifest(dir.disk);
    if previous.lifecycle == Retired {
      return Failure(InstallationInactive);
    }
    var retired :- NextManifest(previous, Retired, nonce);
    var moved := Transition(dir, retired, Retirement);
    ManifestIsFailStop(s, dir.Now(), retired, Retirement, moved);
    ManifestIssues(s, dir.Now(), retired, Retirement, moved);
    AnchorMoveKeeps(s.disk, dir.disk);
    NextEpochReaches(s, dir.Now(), previous, retired, Retirement, moved);
    if retired.epoch < U64_MAX { OneInterruptionIsRepairable(s, dir.Now(), previous, retired, Retirement, moved); }
    if moved.Failure? {
      return Failure(moved.error);
    }
    return Success(retired.epoch);
  }

  /** So does one interruption of the commit of a Changing epoch to Active, and no repair makes it Active. */
  lemma CommitInterruptionIsRepairable(s: World, t: World, changing: Manifest, config: Option<Config>, r: Res<()>)
    requires Inv(s) && CleanManifest(s.disk) == Success(changing)
    requires changing.lifecycle == Changing && changing.epoch < U64_MAX && config.Some?
    requires s.disk.activation.value.kind == Activation
    requires ManifestRewrote(s, t, changing.(lifecycle := Active, config := config), Activation, r)
    ensures Recoverable(t.disk)
    ensures forall nonce :: RepairManifest(t.disk, nonce).Success? ==>
              RepairManifest(t.disk, nonce).value == Manifest(changing.epoch + 1, nonce, Changing, None)
  {
    ManifestRewriteReaches(s, t, changing.(lifecycle := Active, config := config), Activation, r);
    ReachesKeeps(s, t);
    forall nonce ensures CleanManifest(t.disk).Success? || RepairManifest(t.disk, nonce).Success? {
      RepairAccepts(t, nonce);
    }
  }

  /** Select a configuration for the Changing epoch the anchor is in. */
  method CommitActive(dir: PrivateDirectory, changing: Manifest, proposed: Option<Config>) returns (r: Res<()>)
    requires Inv(dir.Now()) && CleanManifest(dir.disk) == Success(changing) && changing.lifecycle == Changing
    requires dir.disk.activation.value.kind == Activation && proposed.Some?
    modifies dir
    ensures old(dir.faults) <= dir.faults && (r.Success? <==> dir.faults == old(dir.faults))
    ensures Reaches(old(dir.Now()), dir.Now()) && dir.hist.issued == old(dir.hist).issued
    ensures var selected := changing.(lifecycle := Active, config := proposed);
            && ManifestRewrote(old(dir.Now()), dir.Now(), selected, Activation, r)
            && (r.Success? ==> CleanManifest(dir.disk) == Success(selected))
    ensures dir.disk == old(dir.disk).(manifest := dir.disk.manifest, activation := dir.disk.activation)
    ensures dir.disk.activation.Some? && dir.disk.activation.value.epoch == changing.epoch
    ensures changing.epoch < U64_MAX ==> Recoverable(dir.disk)
  {
    ghost var s := dir.Now();
    var selected := changing.(lifecycle := Active, config := proposed);
    r := Transition(dir, selected, Activation);
    ManifestIsFailStop(s, dir.Now(), selected, Activation, r);
    ManifestIssues(s, dir.Now(), selected, Activation, r);
    ManifestRewriteReaches(s, dir.Now(), selected, Activation, r);
    if changing.epoch < U64_MAX { CommitInterruptionIsRepairable(s, dir.Now(), changing, proposed, r); }
  }

  /**
   What an accepted activation leaves behind, by how it ended: the move to the Changing epoch alone,
   cut or complete, or that move followed by the commit to Active.
   */
  ghost predicate ActivatedBy(s: World, t: World, changing: Manifest, proposed: Option<Config>, r: Res<nat>) {
    var moved := ManifestMoved(s, changing, Activation);
    match r
    case Success(epoch) =>
      && epoch == changing.epoch && proposed.Some?
      && t == ManifestMoved(moved, changing.(lifecycle := Active, config := proposed), Activation)
    case Failure(e) =>
      || (proposed.None? && e == ConfigInvalid && t == moved)
      || ManifestRewrote(s, t, changing, Activation, Failure(e))
      || (proposed.Some?
          && ManifestRewrote(moved, t, changing.(lifecycle := Active, config := proposed), Activation, Failure(e)))
  }

  /**
   Move to a new Changing epoch, then validate the proposed configuration (`None` when it fails
   to load or validate), then select it.
   */
  method Activate(dir: PrivateDirectory, proposed: Option<Config>, nonce: Uuid) returns (r: Res<nat>)
    requires Inv(dir.Now()) && Unused(dir.Now(), nonce)
    modifies dir
    ensures old(dir.faults) <= dir.faults
    ensures Issues(old(dir.Now()), dir.Now(), {nonce})
    ensures StrandedKept(old(dir.disk), dir.disk)
    ensures Reaches(old(dir.Now()), dir.Now())
    ensures ActivationStart(old(dir.disk), nonce).Failure? ==>
              r == Failure(ActivationStart(old(dir.disk), nonce).error) && dir.Now() == old(dir.Now())
    ensures ActivationStart(old(dir.disk), nonce).Success? ==>
              var changing := ActivationStart(old(dir.disk), nonce).value;
              && (r == Failure(ConfigInvalid) ==> proposed.None? && CleanManifest(dir.disk) == Success(changing))
              && (r.Failure? && !Faulted(r.error) ==> proposed.None? && r.error == ConfigInvalid)
              && (dir.faults == old(dir.faults) ==> (r.Success? <==> proposed.Some?))
              && ActivatedBy(old(dir.Now()), dir.Now(), changing, proposed, r)
              && (r.Success? ==>
                    && proposed.Some? && r.value == changing.epoch
                    && CleanManifest(dir.disk) == Success(changing.(lifecycle := Active, config := proposed)))
              && (dir.Now() == old(dir.Now()) ||
                   (dir.disk.activation.Some? && dir.disk.activation.value.epoch == changing.epoch))
              && (changing.epoch < U64_MAX ==> Recoverable(dir.disk))
    ensures dir.disk == old(dir.disk).(manifest := dir.disk.manifest, activation := dir.disk.activation)
  {
    ghost var s := dir.Now();
    ReachesSelf(s);
    StrandedIsUnreadable(s.disk, Root(""));
    var previous :- CleanManifest(dir.disk);
    if previous.lifecycle == Retired {
      return Failure(InstallationInactive);
    }
    var changing :- NextManifest(previous, Changing, nonce);
    var moved := Transition(dir, changing, Activation);
    ghost var t := dir.Now();
    ManifestIsFailStop(s, t, changing, Activation, moved);
    ManifestIssues(s, t, changing, Activation, moved);
    NextEpochReaches(s, t, previous, changing, Activation, moved);
    AnchorMoveKeeps(s.disk, t.disk);
    if changing.epoch < U64_MAX { OneInterruptionIsRepairable(s, t, previous, changing, Activation, moved); }
    if moved.Failure? {
      return Failure(moved.error);
    }
    if proposed.None? {
      return Failure(ConfigInvalid);
    }
    var committed := CommitActive(dir, changing, proposed);
    ReachesOn(s, t, dir.Now());
    AnchorMoveKeeps(s.disk, dir.disk);
    if committed.Failure? {
      return Failure(committed.error);
    }
    return Success(changing.epoch);
  }

  /** A repair interrupted right after its first journal write, from a journal already ahead, cannot be repaired. */
  lemma SecondInterruptionStrands(s: World, nonce: Uuid, next: Uuid)
    requires Inv(s) && RepairManifest(s.disk, nonce).Success? && nonce != NIL
    requires s.disk.activation.value.epoch == s.disk.manifest.value.epoch + 1
    ensures var t := After(s, OpenActivation(RepairManifest(s.disk, nonce).value, s.disk.activation.value.kind));
            StrandedAnchor(t.disk) && CleanManifest(t.disk).Failure? && RepairManifest(t.disk, next).Failure?
  {
  }

  /** No control operation of a stranded anchor is accepted. */
  lemma StrandedAnchorRefuses(d: Disk, nonce: Uuid, loaded: Option<Config>)
    requires StrandedAnchor(d)
    ensures ActivationStart(d, nonce).Failure? && RetirementStart(d, nonce).Failure? &&
              RepairManifest(d, nonce).Failure?
    ensures PoisonManifest(d, nonce).Failure? && CheckActive(d, loaded).Failure?
  {
  }
}
