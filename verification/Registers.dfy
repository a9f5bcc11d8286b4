/** The three journalled records behave as fail-stop registers, and their rewrites follow the protocol. */
module Registers {
  import opened Wrappers
  import opened Records
  import opened Reading
  import opened Protocol
  import opened State

  // ---- the writes of each register -----------------------------------------------------

  function OpenActivation(m: Manifest, kind: TransitionKind): Write {
    PutActivation(ActivationJournal(m.epoch, m.nonce, kind, false))
  }

  function CloseActivation(m: Manifest, kind: TransitionKind): Write {
    PutActivation(ActivationJournal(m.epoch, m.nonce, kind, true))
  }

  function OpenHead(k: Key, h: Head): Write {
    PutJournal(k, SessionJournal(h.generation, h.sequence, false))
  }

  function CloseHead(k: Key, h: Head): Write {
    PutJournal(k, SessionJournal(h.generation, h.sequence, true))
  }

  function OpenGuard(k: Key, g: Guard): Write {
    PutGuardJournal(k, GuardJournal(g.generation, g.sequence, g.attempt, false))
  }

  function CloseGuard(k: Key, g: Guard): Write {
    PutGuardJournal(k, GuardJournal(g.generation, g.sequence, g.attempt, true))
  }

  ghost predicate ManifestRewrote(s: World, t: World, m: Manifest, kind: TransitionKind, r: Res<()>) {
    Rewrote(s, t, OpenActivation(m, kind), PutManifest(m), CloseActivation(m, kind), r)
  }

  ghost predicate HeadRewrote(s: World, t: World, k: Key, h: Head, r: Res<()>) {
    Rewrote(s, t, OpenHead(k, h), PutHead(k, h), CloseHead(k, h), r)
  }

  ghost predicate GuardRewrote(s: World, t: World, k: Key, g: Guard, r: Res<()>) {
    Rewrote(s, t, OpenGuard(k, g), PutGuard(k, g), CloseGuard(k, g), r)
  }

  // ---- fail-stop -----------------------------------------------------------------------

  /** What a reader finds after each of the writes of a head rewrite. */
  lemma HeadStages(s: World, k: Key, h: Head)
    requires ValidHead(k, h)
    ensures var begun := After(s, OpenHead(k, h));
            var written := After(begun, PutHead(k, h));
            var closed := After(written, CloseHead(k, h));
            var restored := After(closed, OpenHead(k, h));
            && ReadHead(begun.disk, k).Failure? && ReadHead(written.disk, k).Failure? &&
                 ReadHead(restored.disk, k).Failure?
            && ReadHead(closed.disk, k) == Success(Some(h))
            && restored.disk == written.disk
  {
    var begun := After(s, OpenHead(k, h));
    var written := After(begun, PutHead(k, h));
    assert written.disk.journals[k := SessionJournal(h.generation, h.sequence, true)][k := written.disk.journals[k]]
      == written.disk.journals;
  }

  /** What a head write leaves behind unless it had no effect: its own journal, and the old head or the new one. */
  lemma HeadLeftBehind(s: World, t: World, k: Key, h: Head, r: Res<()>)
    requires HeadRewrote(s, t, k, h, r) && t != s
    ensures k in t.disk.journals && t.disk.journals[k].generation == h.generation &&
              t.disk.journals[k].sequence == h.sequence
    ensures (k in t.disk.heads && t.disk.heads[k] == h)
            || (t.disk.heads == s.disk.heads && !t.disk.journals[k].resolved)
    ensures t.disk.manifest == s.disk.manifest && t.disk.activation == s.disk.activation
  {
  }

  /** At most the head and the journal of one key differ. */
  ghost predicate OnlyHead(d: Disk, d': Disk, k: Key) {
    && d' == d.(heads := d'.heads, journals := d'.journals)
    && forall l :: l != k ==>
         && (l in d'.heads <==> l in d.heads) && (l in d.heads ==> d'.heads[l] == d.heads[l])
         && (l in d'.journals <==> l in d.journals) && (l in d.journals ==> d'.journals[l] == d.journals[l])
  }

  /**
   However a head write ends, a reader finds the old head, the new head or an error. Success
   means the new head; after an error the new head is found only if its closing journal write
   stayed in effect, the old head only if no write took effect. No other record changes.
   */
  lemma HeadIsFailStop(s: World, t: World, k: Key, h: Head, r: Res<()>)
    requires ValidHead(k, h) && HeadRewrote(s, t, k, h, r)
    ensures r.Success? ==> ReadHead(t.disk, k) == Success(Some(h))
    ensures t == s || ReadHead(t.disk, k).Failure? || ReadHead(t.disk, k) == Success(Some(h))
    ensures r == Failure(IoFailed) && t != s ==> ReadHead(t.disk, k).Failure?
    ensures t != s && ReadHead(t.disk, k).Success? ==>
              t == After(After(After(s, OpenHead(k, h)), PutHead(k, h)), CloseHead(k, h))
    ensures OnlyHead(s.disk, t.disk, k)
  {
    HeadStages(s, k, h);
    var begun := After(s, OpenHead(k, h));
    var written := After(begun, PutHead(k, h));
    assert OnlyHead(s.disk, begun.disk, k) && OnlyHead(s.disk, written.disk, k);
  }

  /** At most the guard and the guard journal of one key differ. */
  ghost predicate OnlyGuard(d: Disk, d': Disk, k: Key) {
    && d' == d.(guards := d'.guards, guardJournals := d'.guardJournals)
    && forall l :: l != k ==>
         && (l in d'.guards <==> l in d.guards) && (l in d.guards ==> d'.guards[l] == d.guards[l])
         && (l in d'.guardJournals <==> l in d.guardJournals) &&
              (l in d.guardJournals ==> d'.guardJournals[l] == d.guardJournals[l])
  }

  /** What a reader finds after each of the writes of a guard rewrite. */
  lemma GuardStages(s: World, k: Key, h: Head, g: Guard)
    requires ValidGuard(h, g)
    ensures var begun := After(s, OpenGuard(k, g));
            var written := After(begun, PutGuard(k, g));
            var closed := After(written, CloseGuard(k, g));
            var restored := After(closed, OpenGuard(k, g));
            && ReadGuard(begun.disk, k, h).Failure? && ReadGuard(written.disk, k, h).Failure?
            && ReadGuard(closed.disk, k, h) == Success(g)
            && restored.disk == written.disk
            && OnlyGuard(s.disk, begun.disk, k) && OnlyGuard(s.disk, written.disk, k) &&
                 OnlyGuard(s.disk, closed.disk, k)
            && (g.state == Idle ==> closed.hist == s.hist.(guarded := s.hist.guarded + {(k, g.generation)}))
            && begun.hist == s.hist && (g.attempt.None? ==> written.hist == s.hist) && restored.hist == closed.hist
  {
    var written := After(After(s, OpenGuard(k, g)), PutGuard(k, g));
    var closed := GuardJournal(g.generation, g.sequence, g.attempt, true);
    assert written.disk.guardJournals[k := closed][k := written.disk.guardJournals[k]]
           == written.disk.guardJournals;
  }

  /** However a guard write ends, a reader finds the old guard, the new guard or an error. */
  lemma GuardIsFailStop(s: World, t: World, k: Key, h: Head, g: Guard, r: Res<()>)
    requires ValidGuard(h, g) && GuardRewrote(s, t, k, g, r)
    ensures r.Success? ==> ReadGuard(t.disk, k, h) == Success(g)
    ensures t == s || ReadGuard(t.disk, k, h).Failure? || ReadGuard(t.disk, k, h) == Success(g)
    ensures r == Failure(IoFailed) && t != s ==> ReadGuard(t.disk, k, h).Failure?
    ensures t != s && ReadGuard(t.disk, k, h).Success? ==>
              t == After(After(After(s, OpenGuard(k, g)), PutGuard(k, g)), CloseGuard(k, g))
    ensures OnlyGuard(s.disk, t.disk, k)
    ensures g.state == Idle ==> t.hist == s.hist.(guarded := t.hist.guarded)
    ensures g.state == Idle && r.Success? ==> (k, g.generation) in t.hist.guarded
  {
    GuardStages(s, k, h, g);
  }

  /** A manifest moved without a fault. */
  ghost function ManifestMoved(s: World, m: Manifest, kind: TransitionKind): World {
    After(After(After(s, OpenActivation(m, kind)), PutManifest(m)), CloseActivation(m, kind))
  }

  /** However a manifest transition ends, a reader finds the old manifest, the new one or an error. */
  lemma ManifestIsFailStop(s: World, t: World, m: Manifest, kind: TransitionKind, r: Res<()>)
    requires ManifestShape(m) && ManifestRewrote(s, t, m, kind, r)
    ensures r.Success? ==> CleanManifest(t.disk) == Success(m)
    ensures CleanManifest(t.disk) == Success(m) || CleanManifest(t.disk).Failure? || t == s
    ensures r == Failure(IoFailed) && t != s ==> CleanManifest(t.disk).Failure?
    ensures t != s && CleanManifest(t.disk).Success? ==> t == ManifestMoved(s, m, kind)
    ensures t.disk == s.disk.(manifest := t.disk.manifest, activation := t.disk.activation)
  {
  }

  // ---- rewrites are protocol steps -----------------------------------------------------

  lemma RewriteReaches(s: World, t: World, unresolved: Write, record: Write, resolved: Write, r: Res<()>)
    requires Rewrote(s, t, unresolved, record, resolved, r)
    requires MayWrite(s, unresolved)
    requires var begun := After(s, unresolved);
             var written := After(begun, record);
             var closed := After(written, resolved);
             MayWrite(begun, record) && MayWrite(written, resolved) && MayWrite(closed, unresolved)
    ensures Reaches(s, t)
  {
    var begun := After(s, unresolved);
    var written := After(begun, record);
    var closed := After(written, resolved);
    ReachesSelf(s);
    ReachesNext(s, Wrote(unresolved));
    ReachesNext(begun, Wrote(record));
    ReachesOn(s, begun, written);
    ReachesNext(written, Wrote(resolved));
    ReachesOn(s, written, closed);
    ReachesNext(closed, Wrote(unresolved));
    ReachesOn(s, closed, After(closed, unresolved));
  }

  lemma ManifestRewriteReaches(s: World, t: World, m: Manifest, kind: TransitionKind, r: Res<()>)
    requires ManifestRewrote(s, t, m, kind, r) && MayWrite(s, OpenActivation(m, kind))
    requires MayManifest(After(s, OpenActivation(m, kind)), m)
    ensures Reaches(s, t)
  {
    RewriteReaches(s, t, OpenActivation(m, kind), PutManifest(m), CloseActivation(m, kind), r);
  }

  lemma ManifestMoves(s: World, m: Manifest, kind: TransitionKind)
    requires MayWrite(s, OpenActivation(m, kind)) && MayManifest(After(s, OpenActivation(m, kind)), m)
    ensures Reaches(s, ManifestMoved(s, m, kind)) && ManifestRewrote(s, ManifestMoved(s, m, kind), m, kind, Success(()))
  {
    ManifestRewriteReaches(s, ManifestMoved(s, m, kind), m, kind, Success(()));
  }

  lemma HeadRewriteReaches(s: World, t: World, k: Key, h: Head, r: Res<()>)
    requires HeadRewrote(s, t, k, h, r) && MayWrite(s, OpenHead(k, h)) && MayHead(After(s, OpenHead(k, h)), k, h)
    ensures Reaches(s, t)
  {
    RewriteReaches(s, t, OpenHead(k, h), PutHead(k, h), CloseHead(k, h), r);
  }

  lemma GuardRewriteReaches(s: World, t: World, k: Key, g: Guard, r: Res<()>)
    requires GuardRewrote(s, t, k, g, r) && MayWrite(s, OpenGuard(k, g)) && MayGuard(After(s, OpenGuard(k, g)), k, g)
    ensures Reaches(s, t)
  {
    RewriteReaches(s, t, OpenGuard(k, g), PutGuard(k, g), CloseGuard(k, g), r);
  }

  /** A head moved without a fault. */
  ghost function HeadMoved(s: World, k: Key, h: Head): World {
    After(After(After(s, OpenHead(k, h)), PutHead(k, h)), CloseHead(k, h))
  }

  lemma HeadMoves(s: World, k: Key, h: Head)
    requires MayWrite(s, OpenHead(k, h)) && MayHead(After(s, OpenHead(k, h)), k, h)
    ensures Reaches(s, HeadMoved(s, k, h)) && HeadRewrote(s, HeadMoved(s, k, h), k, h, Success(()))
    ensures ReadHead(HeadMoved(s, k, h).disk, k) == Success(Some(h))
    ensures HeadMoved(s, k, h).hist.issued == s.hist.issued + {h.generation}
    ensures EpochLocked(HeadMoved(s, k, h).disk) == EpochLocked(s.disk)
  {
    HeadRewriteReaches(s, HeadMoved(s, k, h), k, h, Success(()));
  }
}
