/** Session generations: begin, bind, publish, retire and repair. */
module Sessions {
  import opened Wrappers
  import opened Records
  import opened Reading
  import opened Protocol
  import opened Invariants
  import opened Preservation
  import opened State
  import opened Registers
  import opened Installation
  import opened Stranding
  import opened Safety

  const EXTERNAL_ID_BYTES: nat := 1024

  /** The control key of a client session identifier. */
  function SessionKey(session: string): Res<Key> {
    if |session| == 0 || |session| > EXTERNAL_ID_BYTES then Failure(SessionInvalid) else Success(Root(session))
  }

  // ---- journalled writes ---------------------------------------------------------------

  ghost predicate MayRewriteHead(s: World, k: Key, h: Head) {
    && Inv(s) && MayWrite(s, OpenHead(k, h)) && h.version == VersionOf(k)
    && (Begins(s, k, h) || (k in s.disk.heads && Moves(s, k, s.disk.heads[k], h)))
  }

  method ReplaceHead(dir: PrivateDirectory, k: Key, h: Head) returns (r: Res<()>)
    modifies dir
    ensures old(dir.faults) <= dir.faults
    ensures if ValidHead(k, h) then r.Success? <==> dir.faults == old(dir.faults) else dir.faults == old(dir.faults)
    ensures !ValidHead(k, h) ==> r == Failure(SnapshotInvalid) && dir.Now() == old(dir.Now())
    ensures ValidHead(k, h) ==> HeadRewrote(old(dir.Now()), dir.Now(), k, h, r)
    ensures ValidHead(k, h) && MayRewriteHead(old(dir.Now()), k, h) ==>
              Reaches(old(dir.Now()), dir.Now()) && Inv(dir.Now())
  {
    if !ValidHead(k, h) {
      return Failure(SnapshotInvalid);
    }
    r := dir.Rewrite(OpenHead(k, h), PutHead(k, h), CloseHead(k, h));
    ghost var s, t := old(dir.Now()), dir.Now();
    if MayRewriteHead(s, k, h) {
      HeadRewriteReaches(s, t, k, h, r);
      ReachesKeeps(s, t);
    }
  }

  ghost predicate MayRewriteGuard(s: World, k: Key, g: Guard) {
    Inv(s) && MayWrite(s, OpenGuard(k, g)) && MayGuard(After(s, OpenGuard(k, g)), k, g)
  }

  method ReplaceGuard(dir: PrivateDirectory, k: Key, h: Head, g: Guard) returns (r: Res<()>)
    modifies dir
    ensures old(dir.faults) <= dir.faults
    ensures if ValidGuard(h, g) then r.Success? <==> dir.faults == old(dir.faults) else dir.faults == old(dir.faults)
    ensures !ValidGuard(h, g) ==> r == Failure(SnapshotInvalid) && dir.Now() == old(dir.Now())
    ensures ValidGuard(h, g) ==> GuardRewrote(old(dir.Now()), dir.Now(), k, g, r)
    ensures ValidGuard(h, g) && MayRewriteGuard(old(dir.Now()), k, g) ==>
              Reaches(old(dir.Now()), dir.Now()) && Inv(dir.Now())
  {
    if !ValidGuard(h, g) {
      return Failure(SnapshotInvalid);
    }
    r := dir.Rewrite(OpenGuard(k, g), PutGuard(k, g), CloseGuard(k, g));
    ghost var s, t := old(dir.Now()), dir.Now();
    if MayRewriteGuard(s, k, g) {
      GuardRewriteReaches(s, t, k, g, r);
      ReachesKeeps(s, t);
    }
  }

  // ---- retire --------------------------------------------------------------------------

  /** Retire an Emitted head; leave any other readable head; poison on an unreadable one. */
  ghost predicate RetiredCurrent(s: World, t: World, k: Key, nonce: Uuid, r: Res<()>) {
    match ReadHead(s.disk, k)
    case Failure(_) => Poisoned(s, t, nonce, r)
    case Success(head) =>
      if head.Some? && head.value.state == Emitted then HeadRewrote(s, t, k, Voided(head.value), r)
      else r == Success(()) && t == s
  }

  /** Retiring a readable head leaves the installation alone. */
  lemma RetiringKeepsManifest(s: World, t: World, k: Key, nonce: Uuid, r: Res<()>)
    requires ReadHead(s.disk, k).Success? && RetiredCurrent(s, t, k, nonce, r)
    ensures t.disk.manifest == s.disk.manifest && t.disk.activation == s.disk.activation
  {
    var head := ReadHead(s.disk, k).value;
    if head.Some? && head.value.state == Emitted && t != s {
      HeadLeftBehind(s, t, k, Voided(head.value), r);
    }
  }

  method RetireCurrentLocked(dir: PrivateDirectory, k: Key, nonce: Uuid) returns (r: Res<()>)
    requires Inv(dir.Now()) && Unused(dir.Now(), nonce)
    modifies dir
    ensures old(dir.faults) <= dir.faults
    ensures dir.faults == old(dir.faults) ==>
              (r.Success? <==> ReadHead(old(dir.disk), k).Success? || PoisonManifest(old(dir.disk), nonce).Success?)
    ensures Issues(old(dir.Now()), dir.Now(), {nonce})
    ensures StrandedKept(old(dir.disk), dir.disk)
    ensures Reaches(old(dir.Now()), dir.Now()) && Inv(dir.Now())
    ensures RetiredCurrent(old(dir.Now()), dir.Now(), k, nonce, r)
  {
    ReachesSelf(dir.Now());
    assert KeyInv(dir.Now(), k);
    match ReadHead(dir.disk, k) {
      case Failure(_) =>
        r := PoisonLocked(dir, nonce);
      case Success(head) =>
        if head.Some? && head.value.state == Emitted {
          ghost var s := dir.Now();
          r := ReplaceHead(dir, k, Voided(head.value));
          HeadIsFailStop(s, dir.Now(), k, Voided(head.value), r);
          HeadIssues(s, dir.Now(), k, Voided(head.value), r);
          StrandedIsUnreadable(s.disk, k);
          HeadMoveKeeps(s.disk, dir.disk, k);
        } else {
          r := Success(());
        }
    }
  }

  /** Retire one session after a malformed event, under an Active installation. */
  method RejectEvent(dir: PrivateDirectory, k: Key, loaded: Option<Config>, nonce: Uuid) returns (r: Res<()>)
    requires Inv(dir.Now()) && Unused(dir.Now(), nonce)
    modifies dir
    ensures old(dir.faults) <= dir.faults
    ensures dir.faults == old(dir.faults) && CheckActive(old(dir.disk), loaded).Success? ==>
              (r.Success? <==> ReadHead(old(dir.disk), k).Success? || PoisonManifest(old(dir.disk), nonce).Success?)
    ensures Issues(old(dir.Now()), dir.Now(), {nonce})
    ensures StrandedKept(old(dir.disk), dir.disk)
    ensures Reaches(old(dir.Now()), dir.Now())
    ensures if CheckActive(old(dir.disk), loaded).Success? then RetiredCurrent(old(dir.Now()), dir.Now(), k, nonce, r)
            else r.Failure? && ActiveRefused(old(dir.Now()), dir.Now(), loaded, nonce, r.error)
  {
    var active :- ActiveLocked(dir, loaded, nonce);
    r := RetireCurrentLocked(dir, k, nonce);
  }

  /** What retiring one observed generation does, by what it finds. */
  ghost predicate Rejected(s: World, t: World, k: Key, generation: Uuid, nonce: Uuid, r: Res<()>) {
    match ReadHead(s.disk, k)
    case Failure(e) => exists p :: Poisoned(s, t, nonce, p) && r == Failure(if p.Failure? then p.error else e)
    case Success(head) =>
      if head.Some? && head.value.generation == generation then RetiredCurrent(s, t, k, nonce, r)
      else r == Success(()) && t == s
  }

  /**
   Retire only the generation observed before a failure. This runs without an Active check: an
   unreadable head poisons whatever clean manifest there is.
   */
  method RejectGeneration(dir: PrivateDirectory, k: Key, generation: Uuid, nonce: Uuid) returns (r: Res<()>)
    requires Inv(dir.Now()) && Unused(dir.Now(), nonce)
    modifies dir
    ensures old(dir.faults) <= dir.faults
    ensures dir.faults == old(dir.faults) ==> (r.Success? <==> ReadHead(old(dir.disk), k).Success?)
    ensures Issues(old(dir.Now()), dir.Now(), {nonce})
    ensures StrandedKept(old(dir.disk), dir.disk)
    ensures Reaches(old(dir.Now()), dir.Now())
    ensures Rejected(old(dir.Now()), dir.Now(), k, generation, nonce, r)
  {
    ReachesSelf(dir.Now());
    match ReadHead(dir.disk, k) {
      case Failure(e) =>
        var p := PoisonLocked(dir, nonce);
        return Failure(if p.Failure? then p.error else e);
      case Success(head) =>
        if head.Some? && head.value.generation == generation {
          r := RetireCurrentLocked(dir, k, nonce);
        } else {
          r := Success(());
        }
    }
  }

  /**
   Rejecting does not ask whether the installation is still in service. A Retired anchor stays
   Retired, however the call ends, if the head of the key is readable or its epoch is the last
   one; otherwise a call whose writes succeed makes it Changing.
   */
  lemma RejectedRetiredStaysExactly(s: World, t: World, k: Key, generation: Uuid, nonce: Uuid, r: Res<()>)
    requires CleanManifest(s.disk).Success? && CleanManifest(s.disk).value.lifecycle == Retired && nonce != NIL
    requires Rejected(s, t, k, generation, nonce, r)
    ensures ReadHead(s.disk, k).Success? || CleanManifest(s.disk).value.epoch >= U64_MAX ==>
              CleanManifest(t.disk) == CleanManifest(s.disk)
    ensures r.Success? || !Faulted(r.error) ==>
              (CleanManifest(t.disk) == CleanManifest(s.disk)
               <==> ReadHead(s.disk, k).Success? || CleanManifest(s.disk).value.epoch >= U64_MAX)
    ensures CleanManifest(t.disk) != CleanManifest(s.disk)
            && (r.Success? || !Faulted(r.error)) ==>
              CleanManifest(t.disk).Success? && CleanManifest(t.disk).value.lifecycle == Changing
  {
  }

  // ---- begin ---------------------------------------------------------------------------

  function FreshHead(version: nat, epoch: nat, nonce: Uuid, generation: Uuid, sequence: nat): Head {
    Head(version, epoch, nonce, generation, sequence, Pending, None, None, None)
  }

  function PendingOf(k: Key, h: Head): PendingGeneration {
    PendingGeneration(k, h.epoch, h.nonce, h.generation, h.sequence)
  }

  /** The head a new generation of `k` starts with, or why none may start. */
  function BeginHead(d: Disk, k: Key, generation: Uuid): Res<Head> {
    var authority :- EpochLocked(d);
    var previous :- ReadHead(d, k);
    if previous.Some? && previous.value.version != VersionOf(k) then Failure(SnapshotInvalid)
    else if previous.Some? && previous.value.sequence >= U64_MAX then Failure(SessionInvalid)
    else Success(FreshHead(VersionOf(k), authority.0, authority.1, generation,
                           if previous.Some? then previous.value.sequence + 1 else 1))
  }

  lemma BeginIsLicensed(s: World, k: Key, generation: Uuid)
    requires Inv(s) && Unused(s, generation) && BeginHead(s.disk, k, generation).Success?
    ensures MayRewriteHead(s, k, BeginHead(s.disk, k, generation).value) &&
              ValidHead(k, BeginHead(s.disk, k, generation).value)
  {
    assert KeyInv(s, k);
  }

  ghost method Hand(dir: PrivateDirectory, pending: PendingGeneration)
    requires Inv(dir.Now()) && May(dir.Now(), Handed(pending))
    modifies dir`hist
    ensures dir.Now() == Next(old(dir.Now()), Handed(pending))
    ensures Reaches(old(dir.Now()), dir.Now()) && Inv(dir.Now())
  {
    ReachesNext(dir.Now(), Handed(pending));
    ReachesKeeps(dir.Now(), Next(dir.Now(), Handed(pending)));
    dir.hist := Next(dir.Now(), Handed(pending)).hist;
  }

  method BeginSession(dir: PrivateDirectory, session: string, generation: Uuid) returns (r: Res<PendingGeneration>)
    requires Inv(dir.Now()) && Unused(dir.Now(), generation)
    modifies dir
    ensures old(dir.faults) <= dir.faults
    ensures dir.faults == old(dir.faults) ==>
              (r.Success? <==>
                SessionKey(session).Success? && BeginHead(old(dir.disk), Root(session), generation).Success?)
    ensures Issues(old(dir.Now()), dir.Now(), {generation})
    ensures StrandedKept(old(dir.disk), dir.disk)
    ensures Reaches(old(dir.Now()), dir.Now())
    ensures SessionKey(session).Failure? ==> r == Failure(SessionInvalid) && dir.Now() == old(dir.Now())
    ensures SessionKey(session).Success? ==>
              var k := Root(session);
              var begin := BeginHead(old(dir.disk), k, generation);
              if begin.Failure? then r == Failure(begin.error) && dir.Now() == old(dir.Now())
              else if r.Failure? then HeadRewrote(old(dir.Now()), dir.Now(), k, begin.value, Failure(r.error))
              else
                && r.value == PendingOf(k, begin.value) && r.value in dir.hist.handed
                && ReadHead(dir.disk, k) == Success(Some(begin.value)) && OnlyHead(old(dir.disk), dir.disk, k)
  {
    ghost var s := dir.Now();
    ReachesSelf(s);
    var k :- SessionKey(session);
    var head :- BeginHead(dir.disk, k, generation);
    BeginIsLicensed(s, k, generation);
    var stored := ReplaceHead(dir, k, head);
    ghost var t := dir.Now();
    HeadIsFailStop(s, t, k, head, stored);
    HeadIssues(s, t, k, head, stored);
    StrandedIsUnreadable(s.disk, k);
    HeadMoveKeeps(s.disk, t.disk, k);
    if stored.Failure? {
      return Failure(stored.error);
    }
    Hand(dir, PendingOf(k, head));
    ReachesOn(s, t, dir.Now());
    return Success(PendingOf(k, head));
  }

  /** A child key starts once; a repeated start leaves a Pending tombstone and hands out nothing. */
  method BeginChild(dir: PrivateDirectory, session: string, agent: string, generation: Uuid)
    returns (r: Res<PendingGeneration>)
    requires Inv(dir.Now()) && Unused(dir.Now(), generation)
    modifies dir
    ensures old(dir.faults) <= dir.faults
    ensures var k := Child(session, agent);
            dir.faults == old(dir.faults) ==>
              (r.Success? <==>
                 BeginHead(old(dir.disk), k, generation).Success? && ReadHead(old(dir.disk), k) == Success(None))
    ensures Issues(old(dir.Now()), dir.Now(), {generation})
    ensures StrandedKept(old(dir.disk), dir.disk)
    ensures Reaches(old(dir.Now()), dir.Now())
    ensures var k := Child(session, agent);
            var begin := BeginHead(old(dir.disk), k, generation);
            if begin.Failure? then r == Failure(begin.error) && dir.Now() == old(dir.Now())
            else
              && (r.Success? ==>
                    && ReadHead(old(dir.disk), k) == Success(None)
                    && r.value == PendingOf(k, begin.value) && r.value in dir.hist.handed
                    && ReadHead(dir.disk, k) == Success(Some(begin.value)) && OnlyHead(old(dir.disk), dir.disk, k))
              && (r.Failure? && r.error == SessionInvalid ==>
                    && ReadHead(old(dir.disk), k).value.Some?
                    && ReadHead(dir.disk, k) == Success(Some(begin.value)) && dir.hist.handed == old(dir.hist.handed))
              && (r.Failure? && r.error != SessionInvalid ==>
                    HeadRewrote(old(dir.Now()), dir.Now(), k, begin.value, Failure(r.error)))
  {
    ghost var s := dir.Now();
    ReachesSelf(s);
    var k := Child(session, agent);
    var head :- BeginHead(dir.disk, k, generation);
    var repeated := ReadHead(dir.disk, k).value.Some?;
    BeginIsLicensed(s, k, generation);
    var stored := ReplaceHead(dir, k, head);
    ghost var t := dir.Now();
    HeadIsFailStop(s, t, k, head, stored);
    HeadIssues(s, t, k, head, stored);
    StrandedIsUnreadable(s.disk, k);
    HeadMoveKeeps(s.disk, t.disk, k);
    if stored.Failure? {
      return Failure(stored.error);
    }
    if repeated {
      return Failure(SessionInvalid);
    }
    Hand(dir, PendingOf(k, head));
    ReachesOn(s, t, dir.Now());
    return Success(PendingOf(k, head));
  }

  /** A begin that took any effect has overtaken whatever generation the key had. */
  lemma BeginOvertakes(s: World, t: World, k: Key, generation: Uuid, r: Res<()>)
    requires BeginHead(s.disk, k, generation).Success?
    requires HeadRewrote(s, t, k, BeginHead(s.disk, k, generation).value, r) && t != s
    ensures k in t.disk.journals && t.disk.journals[k].generation == generation
    ensures k in s.disk.journals ==> s.disk.journals[k].sequence < t.disk.journals[k].sequence
  {
    HeadLeftBehind(s, t, k, BeginHead(s.disk, k, generation).value, r);
  }

  /**
   A begin on the parent that takes any effect, interrupted or not, makes every child published
   before it unusable in every later state, whoever reads it with whatever proof.
   */
  lemma BeginKillsEarlierChildren(run: seq<World>, later: seq<World>, i: nat, m: nat, j: nat, k: Key, session: string,
                                  generation: Uuid, r: Res<()>, active: ActiveInstallation)
    requires Run(run) && Run(later) && run <= later && i < |run| <= m <= j < |later| && k.Child?
    requires k in run[i].disk.heads && run[i].disk.heads[k].state == Emitted
    requires run[i].disk.heads[k].lineage.Some? && run[i].disk.heads[k].lineage.value.parent == Root(session)
    requires var last := run[|run| - 1];
             && BeginHead(last.disk, Root(session), generation).Success?
             && HeadRewrote(last, later[m], Root(session), BeginHead(last.disk, Root(session), generation).value, r)
             && later[m] != last
    ensures forall proof :: !ChildStands(later[j].disk, active, proof, k)
    ensures OutOfReach(later[j].disk, active, k)
  {
    var last := |run| - 1;
    assert later[i] == run[i] && later[last] == run[last];
    EmittedChildHasParent(later, i, k);
    RunKeeps(later, i, last);
    assert KeyAdvances(later[i], later[last], Root(session));
    BeginOvertakes(later[last], later[m], Root(session), generation, r);
    EarlierChildIsDead(later, i, m, j, k, active);
  }

  // ---- bind ----------------------------------------------------------------------------

  /** The bound head a pending generation moves to, under a checked configuration. */
  function BoundHead(d: Disk, active: ActiveInstallation, pending: PendingGeneration, cwd: Cwd): Res<Head> {
    if active.epoch != pending.epoch || active.nonce != pending.nonce then Failure(SessionStale)
    else
      var head :- CurrentPending(d, pending);
      var binding :- active.config.Resolve(cwd);
      Success(head.(binding := Some(binding)))
  }

  method AttachBinding(dir: PrivateDirectory, pending: PendingGeneration, cwd: Cwd, loaded: Option<Config>, nonce: Uuid)
    returns (r: Res<Binding>)
    requires Inv(dir.Now()) && Unused(dir.Now(), nonce)
    modifies dir
    ensures old(dir.faults) <= dir.faults
    ensures dir.faults == old(dir.faults) && CheckActive(old(dir.disk), loaded).Success? ==>
              (r.Success? <==>
                BoundHead(old(dir.disk), CheckActive(old(dir.disk), loaded).value, pending, cwd).Success?)
    ensures Issues(old(dir.Now()), dir.Now(), {nonce})
    ensures StrandedKept(old(dir.disk), dir.disk)
    ensures Reaches(old(dir.Now()), dir.Now())
    ensures CheckActive(old(dir.disk), loaded).Success? ==>
              var bound := BoundHead(old(dir.disk), CheckActive(old(dir.disk), loaded).value, pending, cwd);
              if bound.Failure? then r == Failure(bound.error) && dir.Now() == old(dir.Now())
              else
                && HeadRewrote(old(dir.Now()), dir.Now(), pending.key, bound.value,
                     if r.Success? then Success(()) else Failure(r.error))
                && (r.Success? ==>
                     bound.value.binding == Some(r.value) &&
                       ReadHead(dir.disk, pending.key) == Success(Some(bound.value)))
    ensures CheckActive(old(dir.disk), loaded).Failure? ==>
              r.Failure? && ActiveRefused(old(dir.Now()), dir.Now(), loaded, nonce, r.error)
  {
    ghost var s := dir.Now();
    var active :- ActiveLocked(dir, loaded, nonce);
    var head :- BoundHead(dir.disk, active, pending, cwd);
    assert KeyInv(s, pending.key);
    var stored := ReplaceHead(dir, pending.key, head);
    HeadIsFailStop(s, dir.Now(), pending.key, head, stored);
    HeadIssues(s, dir.Now(), pending.key, head, stored);
    StrandedIsUnreadable(s.disk, pending.key);
    HeadMoveKeeps(s.disk, dir.disk, pending.key);
    if stored.Failure? {
      return Failure(stored.error);
    }
    return Success(head.binding.value);
  }

  // ---- repair --------------------------------------------------------------------------

  /** The tombstone a repair writes: fresh, Pending, one past the journal. Only top-level sessions are repaired. */
  function RepairHead(d: Disk, session: string, generation: Uuid): Res<Head> {
    var k :- SessionKey(session);
    var authority :- EpochLocked(d);
    if k !in d.journals then Failure(SnapshotInvalid)
    else
      var journal := d.journals[k];
      if journal.resolved || journal.generation == NIL || journal.sequence == 0 then Failure(SnapshotInvalid)
      else if k in d.heads && !ValidHead(k, d.heads[k]) then Failure(SnapshotInvalid)
      else if k in d.heads
              && (journal.sequence < d.heads[k].sequence || journal.sequence > Saturating(d.heads[k].sequence)
                  || (journal.sequence == d.heads[k].sequence && journal.generation != d.heads[k].generation)) then
        Failure(SnapshotInvalid)
      else if journal.sequence >= U64_MAX then Failure(SessionInvalid)
      else Success(FreshHead(1, authority.0, authority.1, generation, journal.sequence + 1))
  }

  method RepairSession(dir: PrivateDirectory, session: string, generation: Uuid) returns (r: Res<nat>)
    requires Inv(dir.Now()) && Unused(dir.Now(), generation)
    modifies dir
    ensures old(dir.faults) <= dir.faults
    ensures dir.faults == old(dir.faults) ==> (r.Success? <==> RepairHead(old(dir.disk), session, generation).Success?)
    ensures Issues(old(dir.Now()), dir.Now(), {generation})
    ensures StrandedKept(old(dir.disk), dir.disk)
    ensures Reaches(old(dir.Now()), dir.Now())
    ensures var repair := RepairHead(old(dir.disk), session, generation);
            if repair.Failure? then r == Failure(repair.error) && dir.Now() == old(dir.Now())
            else
              && HeadRewrote(old(dir.Now()), dir.Now(), Root(session), repair.value,
                   if r.Success? then Success(()) else Failure(r.error))
              && (r.Success? ==>
                   r.value == repair.value.sequence && ReadHead(dir.disk, Root(session)) == Success(Some(repair.value)))
  {
    ghost var s := dir.Now();
    ReachesSelf(s);
    var repaired :- RepairHead(dir.disk, session, generation);
    var k := Root(session);
    assert KeyInv(s, k);
    var stored := ReplaceHead(dir, k, repaired);
    HeadIsFailStop(s, dir.Now(), k, repaired, stored);
    HeadIssues(s, dir.Now(), k, repaired, stored);
    HeadMoveKeeps(s.disk, dir.disk, k);
    if stored.Failure? {
      return Failure(stored.error);
    }
    return Success(repaired.sequence);
  }

  /** Exactly when an Active installation repairs a session: unresolved, and the journal at most one ahead. */
  lemma RepairAcceptsSession(s: World, session: string, generation: Uuid)
    requires Inv(s) && EpochLocked(s.disk).Success? && SessionKey(session).Success?
    ensures var k := Root(session);
            RepairHead(s.disk, session, generation).Success? <==>
              && k in s.disk.journals && !s.disk.journals[k].resolved && s.disk.journals[k].sequence < U64_MAX
              && (k in s.disk.heads ==> s.disk.journals[k].sequence <= s.disk.heads[k].sequence + 1)
  {
    assert KeyInv(s, Root(session));
  }

  /** One interrupted write from a readable or absent head leaves a readable or a repairable session. */
  lemma OneInterruptedSessionIsRepairable(s: World, t: World, session: string, h: Head, r: Res<()>, generation: Uuid)
    requires Inv(s) && Inv(t) && SessionKey(session).Success? && EpochLocked(s.disk).Success?
    requires ReadHead(s.disk, Root(session)).Success? && ValidHead(Root(session), h)
    requires h.sequence < U64_MAX && HeadRewrote(s, t, Root(session), h, r)
    requires ReadHead(s.disk, Root(session)).value.Some? ==>
               h.sequence <= ReadHead(s.disk, Root(session)).value.value.sequence + 1
    ensures ReadHead(t.disk, Root(session)).Success? || RepairHead(t.disk, session, generation).Success?
  {
    if t != s {
      HeadLeftBehind(s, t, Root(session), h, r);
      RepairAcceptsSession(t, session, generation);
    }
  }

  /** A repair interrupted after its first journal write, from a journal already ahead, is refused from then on. */
  lemma SecondInterruptedSessionStrands(s: World, session: string, generation: Uuid, next: Uuid)
    requires Inv(s) && RepairHead(s.disk, session, generation).Success? && generation != NIL
    requires Root(session) in s.disk.heads
    requires s.disk.journals[Root(session)].sequence == s.disk.heads[Root(session)].sequence + 1
    ensures var t := After(s, OpenHead(Root(session), RepairHead(s.disk, session, generation).value));
            && StrandedSession(t.disk, Root(session))
            && ReadHead(t.disk, Root(session)).Failure? && RepairHead(t.disk, session, next).Failure?
  {
  }

  /** No operation of a stranded session is accepted. */
  lemma StrandedSessionRefuses(d: Disk, session: string, generation: Uuid)
    requires StrandedSession(d, Root(session))
    ensures BeginHead(d, Root(session), generation).Failure? && RepairHead(d, session, generation).Failure?
    ensures forall p: PendingGeneration :: p.key == Root(session) ==> CurrentPending(d, p).Failure?
  {
  }
}
