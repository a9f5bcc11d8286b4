/** What the protocol guarantees over whole runs, wherever they are interrupted. */
module Safety {
  import opened Wrappers
  import opened Records
  import opened Reading
  import opened Protocol
  import opened Invariants
  import opened Preservation

  /** The authority a caller obtains from a clean Active installation. */
  predicate Usable(d: Disk, active: ActiveInstallation) {
    && EpochLocked(d) == Success((active.epoch, active.nonce))
    && d.manifest.value.config == Some(active.config)
  }

  // ---- delivery ------------------------------------------------------------------------

  /**
   A readable snapshot is the pack of an output that was written and flushed in full, and with
   a gate its Idle guard was stored; both belong to the very generation that is read.
   */
  lemma ReadableWasPublished(run: seq<World>, i: nat, active: ActiveInstallation, k: Key, cwd: Cwd)
    requires Run(run) && i < |run|
    requires Usable(run[i].disk, active) && ReadSnapshot(run[i].disk, active, k, cwd).Success?
    ensures var snapshot := ReadSnapshot(run[i].disk, active, k, cwd).value;
            && Publication(k, snapshot.generation, Output(EventOf(VersionOf(k)), snapshot.pack)) in run[i].hist.flushed
            && (active.config.gate.Some? || k.Child? ==> (k, snapshot.generation) in run[i].hist.guarded)
            && active.config.Resolve(cwd) == Success(snapshot.binding) && snapshot.pack.ValidFor(snapshot.binding)
  {
    RunKeeps(run, i, i);
    assert KeyInv(run[i], k);
  }

  /** Every flushed output was the one named by a Prepared head of its generation at some earlier point of the run. */
  lemma {:induction false} FlushedFromPrepared(run: seq<World>, i: nat, p: Publication) returns (m: nat)
    requires Run(run) && i < |run| && p in run[i].hist.flushed
    ensures m <= i && p.key in run[m].disk.heads
    ensures var h := run[m].disk.heads[p.key];
            h.state == Prepared && h.generation == p.generation && h.evidence.Some? &&
              h.evidence.value.output == p.output
  {
    if i > 0 && p in run[i - 1].hist.flushed {
      m := FlushedFromPrepared(run, i - 1, p);
    } else {
      assert StepAt(run, i);
      m := i - 1;
    }
  }

  /** A head is never Emitted, readable or not, before its output was flushed and its guard stored. */
  lemma EmittedWasDelivered(run: seq<World>, i: nat, k: Key)
    requires Run(run) && i < |run| && k in run[i].disk.heads && run[i].disk.heads[k].state == Emitted
    ensures Delivered(run[i], k, run[i].disk.heads[k]) && Evidenced(run[i], k, run[i].disk.heads[k])
  {
    RunKeeps(run, i, i);
    assert KeyInv(run[i], k);
  }

  // ---- epochs --------------------------------------------------------------------------

  /**
   As soon as the activation journal of an epoch is on disk, no snapshot of an earlier epoch can
   be read, in that state or any later one.
   */
  lemma EarlierEpochsStayUnreadable(run: seq<World>, i: nat, j: nat, active: ActiveInstallation, k: Key, cwd: Cwd)
    requires Run(run) && i <= j < |run| && run[i].disk.activation.Some?
    requires Usable(run[j].disk, active) && ReadSnapshot(run[j].disk, active, k, cwd).Success?
    ensures run[i].disk.activation.value.epoch <= ReadSnapshot(run[j].disk, active, k, cwd).value.epoch
  {
    RunKeeps(run, i, j);
  }

  /** Usable epochs never decrease, and an epoch is only ever Active with one configuration and nonce. */
  lemma ActiveEpochsAreUnique(run: seq<World>, i: nat, j: nat, a: ActiveInstallation, b: ActiveInstallation)
    requires Run(run) && i <= j < |run| && Usable(run[i].disk, a) && Usable(run[j].disk, b)
    ensures a.epoch <= b.epoch && (a.epoch == b.epoch ==> a == b)
  {
    RunKeeps(run, i, j);
  }

  // ---- sessions ------------------------------------------------------------------------

  /** A generation whose journal has been overtaken is never found by a reader again. */
  lemma SupersededStaysUnreadable(run: seq<World>, i: nat, j: nat, m: nat, k: Key)
    requires Run(run) && i <= j <= m < |run|
    requires k in run[i].disk.journals && k in run[j].disk.journals
    requires run[i].disk.journals[k].sequence < run[j].disk.journals[k].sequence
    requires ReadPresentHead(run[m].disk, k).Success?
    ensures run[i].disk.journals[k].sequence < ReadPresentHead(run[m].disk, k).value.sequence
    ensures ReadPresentHead(run[m].disk, k).value.generation != run[i].disk.journals[k].generation
  {
    RunKeeps(run, i, j);
    RunKeeps(run, j, m);
    RunKeeps(run, i, m);
    assert KeyAdvances(run[i], run[j], k) && KeyAdvances(run[j], run[m], k) && KeyAdvances(run[i], run[m], k);
    assert KeyInv(run[i], k);
  }

  /** A readable head of a generation known earlier is that generation's head, no less far along. */
  lemma SameGeneration(run: seq<World>, i: nat, j: nat, k: Key)
    requires Run(run) && i <= j < |run| && k in run[i].disk.heads && ReadPresentHead(run[j].disk, k).Success?
    requires ReadPresentHead(run[j].disk, k).value.generation == run[i].disk.heads[k].generation
    ensures var g, h := run[i].disk.heads[k], run[j].disk.heads[k];
            g.sequence == h.sequence && Rank(g.state) <= Rank(h.state)
            && (Published(g.state) && Published(h.state) ==> h == g.(state := h.state))
  {
    RunKeeps(run, i, j);
    assert KeyInv(run[i], k) && KeyAdvances(run[i], run[j], k);
  }

  /**
   The pack that is read is the one of the only output ever flushed for its generation: whatever
   else was flushed under that generation, at any time before, is that very output.
   */
  lemma ReadableIsTheOnlyOutput(run: seq<World>, i: nat, active: ActiveInstallation, k: Key, cwd: Cwd, p: Publication)
    requires Run(run) && i < |run|
    requires Usable(run[i].disk, active) && ReadSnapshot(run[i].disk, active, k, cwd).Success?
    requires p in run[i].hist.flushed && p.key == k
    requires p.generation == ReadSnapshot(run[i].disk, active, k, cwd).value.generation
    ensures p.output == Output(EventOf(VersionOf(k)), ReadSnapshot(run[i].disk, active, k, cwd).value.pack)
  {
    var m := FlushedFromPrepared(run, i, p);
    SameGeneration(run, m, i, k);
    RunKeeps(run, i, i);
    assert KeyInv(run[i], k);
  }

  /** A retired or failed generation stays so: no repair, refresh or race makes it Emitted again. */
  lemma VoidStaysVoid(run: seq<World>, i: nat, j: nat, k: Key)
    requires Run(run) && i <= j < |run| && k in run[i].disk.heads && run[i].disk.heads[k].state == Invalid
    requires ReadPresentHead(run[j].disk, k).Success?
    requires ReadPresentHead(run[j].disk, k).value.generation == run[i].disk.heads[k].generation
    ensures ReadPresentHead(run[j].disk, k).value.state == Invalid
  {
    SameGeneration(run, i, j, k);
  }

  // ---- children ------------------------------------------------------------------------

  /** What reading, claiming and finishing a child all demand of the parent proof they hold. */
  predicate ChildStands(d: Disk, active: ActiveInstallation, proof: ParentProof, k: Key) {
    && ValidateParent(d, active, proof).Success?
    && ReadPresentHead(d, k).Success?
    && ReadPresentHead(d, k).value.state == Emitted && ReadPresentHead(d, k).value.lineage == Some(proof.lineage)
  }

  /** A child stands only beside the exact Emitted parent generation it was published from. */
  lemma ChildNeedsItsParent(d: Disk, active: ActiveInstallation, proof: ParentProof, k: Key)
    requires ChildStands(d, active, proof, k)
    ensures var lineage := ReadPresentHead(d, k).value.lineage.value;
            && ReadPresentHead(d, lineage.parent).Success?
            && var parent := ReadPresentHead(d, lineage.parent).value;
               && IsParent(parent, lineage) && parent.state == Emitted && parent.epoch == active.epoch
               && ReadSnapshot(d, active, lineage.parent, proof.cwd).Success?
               && ReadSnapshot(d, active, lineage.parent, proof.cwd).value.pack == proof.pack
  {
  }

  /** A child that can be read stands, and its pack is the one its parent reads. */
  lemma ReadChildStands(d: Disk, active: ActiveInstallation, proof: ParentProof, k: Key, cwd: Cwd)
    requires ReadChild(d, active, proof, k, cwd).Success?
    ensures ChildStands(d, active, proof, k)
    ensures ReadSnapshot(d, active, proof.lineage.parent, proof.cwd).Success?
    ensures ReadSnapshot(d, active, proof.lineage.parent, proof.cwd).value.pack
              == ReadChild(d, active, proof, k, cwd).value.pack
  {
  }

  /** The head, the parent and the free guard that let a check be claimed, and the snapshot it is for. */
  ghost predicate Claimable(d: Disk, active: ActiveInstallation, k: Key, cwd: Cwd, parent: Option<ParentProof>) {
    && Usable(d, active) && active.config.gate.Some?
    && ReadSnapshot(d, active, k, cwd).Success?
    && RightLineage(d.heads[k], parent)
    && (parent.Some? ==>
          ChildStands(d, active, parent.value, k) && ReadSnapshot(d, active, k, cwd).value.pack == parent.value.pack)
  }

  /** A finish of a child that may record its evidence finds the child standing. */
  lemma FinishNeedsItsParent(d: Disk, active: ActiveInstallation, claim: ClaimedCheck)
    requires claim.parent.Some? && FinishCheck(d, active, claim).Success?
    ensures ChildStands(d, active, claim.parent.value, claim.key)
  {
  }

  /** No caller can read a child, claim a check of it or finish one, from whatever directory and with whatever proof. */
  ghost predicate OutOfReach(d: Disk, active: ActiveInstallation, k: Key) {
    && (forall proof, cwd :: ReadChild(d, active, proof, k, cwd).Failure?)
    && (forall cwd, parent :: !Claimable(d, active, k, cwd, parent))
    && (forall claim: ClaimedCheck :: claim.key == k ==> FinishCheck(d, active, claim).Failure?)
  }

  /** Without a parent proof, a child can neither be claimed nor finished. */
  lemma ChildNeedsAProof(s: World, active: ActiveInstallation, k: Key, cwd: Cwd, claim: ClaimedCheck)
    requires Inv(s) && k.Child? && claim.key == k && claim.parent.None?
    ensures !Claimable(s.disk, active, k, cwd, None) && FinishCheck(s.disk, active, claim).Failure?
  {
    assert KeyInv(s, k);
  }

  /** A child that stands with no proof is out of reach. */
  lemma FallenIsOutOfReach(s: World, active: ActiveInstallation, k: Key)
    requires Inv(s) && k.Child? && forall proof :: !ChildStands(s.disk, active, proof, k)
    ensures OutOfReach(s.disk, active, k)
  {
    forall proof, cwd ensures ReadChild(s.disk, active, proof, k, cwd).Failure? {
      if ReadChild(s.disk, active, proof, k, cwd).Success? {
        ReadChildStands(s.disk, active, proof, k, cwd);
      }
    }
    forall claim: ClaimedCheck | claim.key == k ensures FinishCheck(s.disk, active, claim).Failure? {
      if claim.parent.None? {
        ChildNeedsAProof(s, active, k, claim.cwd, claim);
      } else if FinishCheck(s.disk, active, claim).Success? {
        FinishNeedsItsParent(s.disk, active, claim);
      }
    }
    forall cwd, parent ensures !Claimable(s.disk, active, k, cwd, parent) {
      if parent.None? {
        assert KeyInv(s, k);
      }
    }
  }

  /** Over a whole run a child key has at most one Emitted head. */
  lemma ChildEmittedOnce(run: seq<World>, i: nat, j: nat, k: Key)
    requires Run(run) && i <= j < |run| && k.Child?
    requires k in run[i].disk.heads && run[i].disk.heads[k].state == Emitted
    requires k in run[j].disk.heads && run[j].disk.heads[k].state == Emitted
    ensures run[i].disk.heads[k] == run[j].disk.heads[k]
  {
    RunKeeps(run, i, j);
    assert KeyInv(run[i], k) && KeyInv(run[j], k) && KeyAdvances(run[i], run[j], k);
  }

  /** Once a parent generation is overtaken, no child of it stands again, whenever it was published. */
  lemma ChildDiesWithItsParent(run: seq<World>, i: nat, j: nat, k: Key, active: ActiveInstallation, proof: ParentProof)
    requires Run(run) && i <= j < |run| && proof.lineage.parent in run[i].disk.journals
    requires proof.lineage.sequence < run[i].disk.journals[proof.lineage.parent].sequence
    ensures !ChildStands(run[j].disk, active, proof, k)
    ensures forall cwd :: ReadChild(run[j].disk, active, proof, k, cwd).Failure?
    ensures forall cwd :: !Claimable(run[j].disk, active, k, cwd, Some(proof))
    ensures forall claim: ClaimedCheck :: claim.key == k && claim.parent == Some(proof) ==>
              FinishCheck(run[j].disk, active, claim).Failure?
  {
    RunKeeps(run, i, j);
    var d := run[j].disk;
    assert KeyAdvances(run[i], run[j], proof.lineage.parent);
    assert !ChildStands(d, active, proof, k) by {
      if ChildStands(d, active, proof, k) {
        ChildNeedsItsParent(d, active, proof, k);
        assert false;
      }
    }
    forall cwd ensures ReadChild(d, active, proof, k, cwd).Failure? {
      if ReadChild(d, active, proof, k, cwd).Success? {
        ReadChildStands(d, active, proof, k, cwd);
      }
    }
    forall claim: ClaimedCheck | claim.key == k && claim.parent == Some(proof)
      ensures FinishCheck(d, active, claim).Failure?
    {
      if FinishCheck(d, active, claim).Success? {
        FinishNeedsItsParent(d, active, claim);
      }
    }
  }

  /** An Emitted child names a parent whose journal has reached the generation it was published from. */
  lemma EmittedChildHasParent(run: seq<World>, i: nat, k: Key)
    requires Run(run) && i < |run| && k.Child?
    requires k in run[i].disk.heads && run[i].disk.heads[k].state == Emitted
    ensures run[i].disk.heads[k].lineage.Some?
    ensures var lineage := run[i].disk.heads[k].lineage.value;
            lineage.parent in run[i].disk.journals && lineage.sequence <= run[i].disk.journals[lineage.parent].sequence
  {
    RunKeeps(run, i, i);
    assert KeyInv(run[i], k) && LineageInv(run[i].disk, k);
  }

  /**
   As soon as a parent's journal moves on from where it stood while a child was Emitted, the child
   is unusable for good, with any proof.
   */
  lemma EarlierChildIsDead(run: seq<World>, i: nat, m: nat, j: nat, k: Key, active: ActiveInstallation)
    requires Run(run) && i <= m <= j < |run| && k.Child?
    requires k in run[i].disk.heads && run[i].disk.heads[k].state == Emitted
    requires var lineage := run[i].disk.heads[k].lineage;
             && lineage.Some?
             && var parent := lineage.value.parent;
             && parent in run[i].disk.journals && parent in run[m].disk.journals
             && run[i].disk.journals[parent].sequence < run[m].disk.journals[parent].sequence
    ensures forall proof :: !ChildStands(run[j].disk, active, proof, k)
    ensures OutOfReach(run[j].disk, active, k)
  {
    EmittedChildHasParent(run, i, k);
    forall proof ensures !ChildStands(run[j].disk, active, proof, k) {
      if ChildStands(run[j].disk, active, proof, k) {
        ChildEmittedOnce(run, i, j, k);
        ChildDiesWithItsParent(run, m, j, k, active, proof);
        assert false;
      }
    }
    RunKeeps(run, i, j);
    FallenIsOutOfReach(run[j], active, k);
  }

  /** While a child stands at two moments of a run, its parent was the same Emitted head all along. */
  lemma ParentWindowIsQuiet(run: seq<World>, i: nat, m: nat, j: nat, k: Key, a: ActiveInstallation,
                            b: ActiveInstallation, proof: ParentProof)
    requires Run(run) && i <= m <= j < |run|
    requires ChildStands(run[i].disk, a, proof, k) && ChildStands(run[j].disk, b, proof, k)
    ensures var parent := proof.lineage.parent;
            && parent in run[m].disk.heads && run[m].disk.heads[parent] == run[i].disk.heads[parent]
            && parent in run[m].disk.journals &&
                 run[m].disk.journals[parent].sequence == run[i].disk.journals[parent].sequence
  {
    var parent := proof.lineage.parent;
    RunKeeps(run, i, m);
    RunKeeps(run, m, j);
    ChildNeedsItsParent(run[i].disk, a, proof, k);
    ChildNeedsItsParent(run[j].disk, b, proof, k);
    assert KeyInv(run[i], parent);
    assert KeyAdvances(run[i], run[m], parent) && KeyAdvances(run[m], run[j], parent);
  }

  // ---- checks --------------------------------------------------------------------------

  /** The records a claim leaves behind and its finish must find again. */
  ghost predicate ClaimedBy(d: Disk, active: ActiveInstallation, k: Key, attempt: Uuid) {
    && Usable(d, active) && ReadPresentHead(d, k).Success? && CheckingBy(d, k, attempt)
    && var h := ReadPresentHead(d, k).value; h.state == Emitted && h.epoch == active.epoch
  }

  /**
   Between a claim and a state in which its finish can still succeed, nothing happened to the
   session: the same attempt was being checked, the head was the same Emitted head, no refresh
   was begun and no activation, retirement or poisoning of the installation took effect.
   */
  lemma ClaimWindowIsQuiet(run: seq<World>, i: nat, m: nat, j: nat, k: Key, attempt: Uuid,
                           a: ActiveInstallation, b: ActiveInstallation)
    requires Run(run) && i <= m <= j < |run|
    requires ClaimedBy(run[i].disk, a, k, attempt) && ClaimedBy(run[j].disk, b, k, attempt) && a.epoch == b.epoch
    requires ReadPresentHead(run[i].disk, k).value.sequence == ReadPresentHead(run[j].disk, k).value.sequence
    ensures CheckingBy(run[m].disk, k, attempt)
    ensures k in run[m].disk.heads && run[m].disk.heads[k] == run[i].disk.heads[k]
    ensures k in run[m].disk.journals && run[m].disk.journals[k].sequence == run[i].disk.journals[k].sequence
    ensures run[m].disk.activation.Some? && run[m].disk.activation.value.epoch == a.epoch
    ensures run[m].disk.manifest == run[i].disk.manifest
  {
    RunKeeps(run, i, m);
    RunKeeps(run, m, j);
    assert KeyInv(run[i], k);
    assert KeyAdvances(run[i], run[m], k) && KeyAdvances(run[m], run[j], k);
  }

  /** An attempt that has left Checking, finished or not, is never checked and so never finished again. */
  lemma AttemptEndsOnce(run: seq<World>, i: nat, m: nat, j: nat, k: Key, attempt: Uuid)
    requires Run(run) && i <= m <= j < |run|
    requires CheckingBy(run[i].disk, k, attempt) && !CheckingBy(run[m].disk, k, attempt)
    ensures !CheckingBy(run[j].disk, k, attempt)
  {
    RunKeeps(run, i, m);
    RunKeeps(run, m, j);
    assert KeyInv(run[i], k);
    assert KeyAdvances(run[m], run[j], k);
  }

  /** A finish that may record its evidence finds its own attempt being checked. */
  lemma FinishFindsItsAttempt(d: Disk, active: ActiveInstallation, claim: ClaimedCheck)
    requires FinishCheck(d, active, claim).Success?
    ensures CheckingBy(d, claim.key, claim.attempt)
  {
  }

  /**
   A claim is finished once: as soon as the attempt it could finish is no longer being checked,
   whether its guard was Completed by an accepted finish or voided, no finish of it is accepted.
   */
  lemma ClaimEndsOnce(run: seq<World>, i: nat, m: nat, j: nat, a: ActiveInstallation, b: ActiveInstallation,
                      claim: ClaimedCheck)
    requires Run(run) && i <= m <= j < |run| && FinishCheck(run[i].disk, a, claim).Success?
    requires claim.key in run[m].disk.guards && run[m].disk.guards[claim.key].state != Checking
    ensures FinishCheck(run[j].disk, b, claim).Failure?
  {
    FinishFindsItsAttempt(run[i].disk, a, claim);
    AttemptEndsOnce(run, i, m, j, claim.key, claim.attempt);
    if FinishCheck(run[j].disk, b, claim).Success? {
      FinishFindsItsAttempt(run[j].disk, b, claim);
    }
  }

  /** A second claim on a session ends the first one for good. */
  lemma SecondClaimEndsTheFirst(run: seq<World>, i: nat, m: nat, j: nat, k: Key, first: Uuid, second: Uuid)
    requires Run(run) && i <= m <= j < |run| && first != second
    requires CheckingBy(run[i].disk, k, first) && CheckingBy(run[m].disk, k, second)
    ensures !CheckingBy(run[j].disk, k, first)
  {
    AttemptEndsOnce(run, i, m, j, k, first);
  }

  /** A Completed guard has counted audit evidence for its attempt, and keeps it. */
  lemma CompletedStaysAudited(run: seq<World>, i: nat, j: nat, k: Key)
    requires Run(run) && i <= j < |run| && k in run[i].disk.guards && run[i].disk.guards[k].state == Completed
    ensures run[i].disk.guards[k].attempt.Some? && Audited(run[j].disk, run[i].disk.guards[k].attempt.value)
  {
    RunKeeps(run, i, j);
    assert KeyInv(run[i], k);
    AuditedStays(run[i].disk, run[j].disk, run[i].disk.guards[k].attempt.value);
  }

  // ---- audit ---------------------------------------------------------------------------

  /** Audit records are never changed or dropped, and the counter always adds up. */
  lemma AuditNeverChanges(run: seq<World>, i: nat, j: nat)
    requires Run(run) && i <= j < |run|
    ensures forall n :: n in run[i].disk.records ==>
              n in run[j].disk.records && run[j].disk.records[n] == run[i].disk.records[n]
    ensures RecordCount(run[i].disk) <= RecordCount(run[j].disk) && AuditInv(run[j].disk)
  {
    RunKeeps(run, i, j);
  }

  /** Number and size of the stored records, counted or not, are within the limits. */
  ghost predicate WithinLimits(d: Disk, limits: Limits) {
    && Admits(limits, RecordCount(d), ByteCount(d))
    && forall n :: n in d.records ==> n <= limits.maxRecords && d.records[n].length <= limits.recordBytes
  }

  /** No append was ever begun under limits that exceed the bound. */
  ghost predicate Bounded(limits: set<Limits>, bound: Limits) {
    forall l :: l in limits ==> Admits(bound, l.maxRecords, l.maxBytes) && l.recordBytes <= bound.recordBytes
  }

  lemma OtherWritesLeaveAudit(d: Disk, w: Write)
    requires !w.PutRecord? && !w.PutCounter?
    ensures Apply(d, w).records == d.records && Apply(d, w).counter == d.counter
  {
  }

  lemma StepWithinLimits(s: World, e: Event, bound: Limits)
    requires May(s, e) && WithinLimits(s.disk, bound) && Bounded(s.hist.limits, bound)
    ensures WithinLimits(Next(s, e).disk, bound)
  {
    if e.Wrote? && e.write.PutRecord? {
      var record := e.write.record;
      var l :| l in s.hist.limits && Admits(l, e.write.index, ByteCount(s.disk) + record.length)
               && record.length <= l.recordBytes;
    } else if e.Wrote? && e.write.PutCounter? {
      var l :| l in s.hist.limits && Admits(l, e.write.counter.records, e.write.counter.bytes);
    } else {
      if e.Wrote? { OtherWritesLeaveAudit(s.disk, e.write); }
    }
  }

  /**
   The audit store never outgrows the limits it is appended under: with fixed limits it stays
   within them in every state of a run, wherever appends are interrupted, and with changing ones
   within the largest.
   */
  lemma {:induction false} AuditStaysWithinLimits(run: seq<World>, i: nat, bound: Limits)
    requires Run(run) && i < |run| && Bounded(run[i].hist.limits, bound)
    ensures WithinLimits(run[i].disk, bound)
  {
    if i == 0 {
    } else {
      RunKeeps(run, i - 1, i);
      AuditStaysWithinLimits(run, i - 1, bound);
      assert StepAt(run, i);
      var e :| May(run[i - 1], e) && run[i] == Next(run[i - 1], e);
      StepWithinLimits(run[i - 1], e, bound);
    }
  }
}
