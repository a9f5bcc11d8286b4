/** Any number of operations, of any processes and each interrupted or not, one after the other. */
module Service {
  import opened Wrappers
  import opened Records
  import opened Reading
  import opened Protocol
  import opened Invariants
  import opened Preservation
  import opened State
  import opened Installation
  import opened Sessions
  import opened Publishing
  import opened Checks
  import opened Audit
  import opened Stranding

  datatype Op =
    | DoActivate(proposed: Option<Config>)
    | DoRetire
    | DoRepairIncomplete
    | DoReload(loaded: Option<Config>)
    | DoRejectEvent(key: Key, loaded: Option<Config>)
    | DoRejectGeneration(key: Key, generation: Uuid)
    | DoBeginSession(session: string)
    | DoBeginChild(session: string, agent: string)
    | DoAttachBinding(pending: PendingGeneration, cwd: Cwd, loaded: Option<Config>)
    | DoRepairSession(session: string)
    | DoCompleteSession(pending: PendingGeneration, cwd: Cwd, pack: Pack, loaded: Option<Config>, actual: Option<Cwd>)
    | DoCompleteChild(session: string, agent: string, pending: PendingGeneration, proof: ParentProof,
                      record: AuditRecord, loaded: Option<Config>, actual: Option<Cwd>)
    | DoReadSession(session: string, cwd: Cwd, loaded: Option<Config>)
    | DoCaptureParent(session: string, cwd: Cwd, loaded: Option<Config>)
    | DoReadChild(proof: ParentProof, session: string, agent: string, cwd: Cwd, loaded: Option<Config>)
    | DoClaim(key: Key, cwd: Cwd, parent: Option<ParentProof>, loaded: Option<Config>)
    | DoFail(key: Key, generation: Uuid, attempt: Uuid)
    | DoFinish(claim: ClaimedCheck, refusal: Option<Error>, length: nat, loaded: Option<Config>)
    | DoAppend(record: AuditRecord, limits: Limits)

  /** `unused` and everything above it has never been issued. */
  ghost predicate Fresh(s: World, unused: Uuid) {
    unused != NIL && forall id :: id in s.hist.issued ==> id < unused
  }

  /** What performing one operation promises, whichever it is. */
  ghost predicate Performed(s: World, t: World, unused: Uuid) {
    Reaches(s, t) && StrandedKept(s.disk, t.disk) && Issues(s, t, {unused, unused + 1})
  }

  lemma NothingPerformed(s: World, unused: Uuid)
    ensures Performed(s, s, unused)
  {
    ReachesSelf(s);
  }

  /** The two identifiers an operation may draw. */
  ghost predicate BothUnused(s: World, unused: Uuid) {
    Unused(s, unused) && Unused(s, unused + 1)
  }

  lemma FreshIsUnused(s: World, unused: Uuid)
    requires Fresh(s, unused)
    ensures BothUnused(s, unused)
  {
  }

  method PerformControl(dir: PrivateDirectory, op: Op, unused: Uuid)
    requires Inv(dir.Now()) && BothUnused(dir.Now(), unused)
    modifies dir
    ensures Performed(old(dir.Now()), dir.Now(), unused)
  {
    NothingPerformed(dir.Now(), unused);
    match op {
      case DoActivate(proposed) =>
        var _ := Activate(dir, proposed, unused);
      case DoRetire =>
        var _ := Retire(dir, unused);
      case DoRepairIncomplete =>
        var _ := RepairIncomplete(dir, unused);
      case DoReload(loaded) =>
        var _ := ActiveLocked(dir, loaded, unused);
      case DoRejectEvent(k, loaded) =>
        var _ := RejectEvent(dir, k, loaded, unused);
      case DoRejectGeneration(k, generation) =>
        var _ := RejectGeneration(dir, k, generation, unused);
      case DoAppend(record, limits) =>
        var _ := AppendRecord(dir, record, limits);
      case _ =>
    }
  }

  /** A caller can only complete a generation that was handed to it. */
  method PerformDelivery(dir: PrivateDirectory, op: Op, unused: Uuid, handed: set<PendingGeneration>)
    returns (began: Option<PendingGeneration>)
    requires Inv(dir.Now()) && BothUnused(dir.Now(), unused) && handed <= dir.hist.handed
    modifies dir
    ensures Performed(old(dir.Now()), dir.Now(), unused)
    ensures began.Some? ==> began.value in dir.hist.handed
  {
    NothingPerformed(dir.Now(), unused);
    began := None;
    match op {
      case DoBeginSession(session) =>
        var r := BeginSession(dir, session, unused);
        began := if r.Success? then Some(r.value) else None;
      case DoBeginChild(session, agent) =>
        var r := BeginChild(dir, session, agent, unused);
        began := if r.Success? then Some(r.value) else None;
      case DoAttachBinding(pending, cwd, loaded) =>
        var _ := AttachBinding(dir, pending, cwd, loaded, unused);
      case DoRepairSession(session) =>
        var _ := RepairSession(dir, session, unused);
      case DoCompleteSession(pending, cwd, pack, loaded, actual) =>
        if pending in handed {
          var _ := CompleteSession(dir, pending, cwd, pack, loaded, actual, unused);
        }
      case DoCompleteChild(session, agent, pending, proof, record, loaded, actual) =>
        if pending in handed {
          var _ := CompleteChild(dir, session, agent, pending, proof, record, loaded, actual, unused);
        }
      case _ =>
    }
  }

  method PerformRead(dir: PrivateDirectory, op: Op, unused: Uuid)
    requires Inv(dir.Now()) && BothUnused(dir.Now(), unused)
    modifies dir
    ensures Performed(old(dir.Now()), dir.Now(), unused)
  {
    NothingPerformed(dir.Now(), unused);
    match op {
      case DoReadSession(session, cwd, loaded) =>
        var _ := ReadSession(dir, session, cwd, loaded, unused);
      case DoCaptureParent(session, cwd, loaded) =>
        var _ := CaptureSession(dir, session, cwd, loaded, unused);
      case DoReadChild(proof, session, agent, cwd, loaded) =>
        var _ := ReadChildSession(dir, proof, session, agent, cwd, loaded, unused);
      case _ =>
    }
  }

  method PerformClaim(dir: PrivateDirectory, k: Key, cwd: Cwd, parent: Option<ParentProof>, loaded: Option<Config>,
                      unused: Uuid)
    requires Inv(dir.Now()) && BothUnused(dir.Now(), unused)
    modifies dir
    ensures Performed(old(dir.Now()), dir.Now(), unused)
  {
    var _ := ClaimHashCheck(dir, k, cwd, parent, loaded, unused, unused + 1);
  }

  method PerformCheck(dir: PrivateDirectory, op: Op, unused: Uuid)
    requires Inv(dir.Now()) && BothUnused(dir.Now(), unused)
    modifies dir
    ensures Performed(old(dir.Now()), dir.Now(), unused)
  {
    NothingPerformed(dir.Now(), unused);
    match op {
      case DoFail(k, generation, attempt) =>
        var _ := FailHashAttempt(dir, k, generation, attempt, unused);
      case DoFinish(claim, refusal, length, loaded) =>
        var _ := FinishChecked(dir, claim, refusal, length, loaded, unused);
      case _ =>
    }
  }

  method Perform(dir: PrivateDirectory, op: Op, unused: Uuid, handed: set<PendingGeneration>)
    returns (began: Option<PendingGeneration>)
    requires Inv(dir.Now()) && BothUnused(dir.Now(), unused) && handed <= dir.hist.handed
    modifies dir
    ensures Performed(old(dir.Now()), dir.Now(), unused)
    ensures began.Some? ==> began.value in dir.hist.handed
  {
    began := None;
    match op {
      case DoActivate(_) | DoRetire | DoRepairIncomplete | DoReload(_) | DoRejectEvent(_, _) | DoRejectGeneration(_, _)
        | DoAppend(_, _) =>
        PerformControl(dir, op, unused);
      case DoBeginSession(_) | DoBeginChild(_, _) | DoAttachBinding(_, _, _) | DoRepairSession(_)
        | DoCompleteSession(_, _, _, _, _) | DoCompleteChild(_, _, _, _, _, _, _) =>
        began := PerformDelivery(dir, op, unused, handed);
      case DoReadSession(_, _, _) | DoCaptureParent(_, _, _) | DoReadChild(_, _, _, _, _) =>
        PerformRead(dir, op, unused);
      case DoClaim(k, cwd, parent, loaded) =>
        PerformClaim(dir, k, cwd, parent, loaded, unused);
      case DoFail(_, _, _) | DoFinish(_, _, _, _) =>
        PerformCheck(dir, op, unused);
    }
  }

  /** The run goes on, and what the caller knows about identifiers and handed generations stays true. */
  lemma PerformedContinues(run: seq<World>, t: World, unused: Uuid) returns (longer: seq<World>)
    requires Run(run) && Fresh(run[|run| - 1], unused) && Performed(run[|run| - 1], t, unused)
    ensures Run(longer) && run <= longer && longer[|longer| - 1] == t
    ensures Inv(t) && Fresh(t, unused + 2) && run[|run| - 1].hist.handed <= t.hist.handed
  {
    OperationExtendsRun(run, t);
    longer :| Run(longer) && run <= longer && longer[|longer| - 1] == t;
    RunKeeps(longer, |run| - 1, |longer| - 1);
    assert longer[|run| - 1] == run[|run| - 1];
  }

  lemma NothingStranded(d: Disk)
    ensures StrandedKept(d, d)
  {
  }

  lemma StrandedStays(d: Disk, d': Disk)
    requires StrandedKept(d, d')
    ensures StrandedAnchor(d) ==> StrandedAnchor(d') && CleanManifest(d').Failure?
    ensures forall k :: StrandedSession(d, k) ==> StrandedSession(d', k) && ReadHead(d', k).Failure?
    ensures OrphanRecord(d) ==> OrphanRecord(d')
  {
    StrandedIsUnreadable(d', Root(""));
    forall k | StrandedSession(d, k) ensures StrandedSession(d', k) && ReadHead(d', k).Failure? {
      assert SameSession(d, d', k);
      StrandedIsUnreadable(d', k);
    }
  }

  /**
   Whatever operations follow a run, they extend it, so that every theorem about runs holds all
   along. What is stranded when they start is stranded when they end, still unreadable and with
   the same records; an orphan audit record has ended appending for good.
   */
  method Serve(dir: PrivateDirectory, ops: seq<Op>, first: Uuid, ghost run: seq<World>)
    returns (ghost later: seq<World>)
    requires Run(run) && run[|run| - 1] == dir.Now() && Fresh(dir.Now(), first)
    modifies dir
    ensures Run(later) && run <= later && later[|later| - 1] == dir.Now()
    ensures StrandedKept(old(dir.disk), dir.disk)
    ensures StrandedAnchor(old(dir.disk)) ==> StrandedAnchor(dir.disk) && CleanManifest(dir.disk).Failure?
    ensures forall k :: StrandedSession(old(dir.disk), k) ==>
              StrandedSession(dir.disk, k) && ReadHead(dir.disk, k).Failure?
    ensures OrphanRecord(old(dir.disk)) ==>
              && OrphanRecord(dir.disk)
              && dir.disk.records == old(dir.disk).records && dir.disk.counter == old(dir.disk).counter
  {
    ghost var start := dir.disk;
    later := run;
    RunKeeps(run, |run| - 1, |run| - 1);
    var unused := first;
    var handed: set<PendingGeneration> := {};
    NothingStranded(start);
    for n := 0 to |ops|
      invariant Run(later) && run <= later && later[|later| - 1] == dir.Now()
      invariant Inv(dir.Now()) && Fresh(dir.Now(), unused) && handed <= dir.hist.handed
      invariant StrandedKept(start, dir.disk)
    {
      ghost var s := dir.Now();
      FreshIsUnused(s, unused);
      var began := Perform(dir, ops[n], unused, handed);
      later := PerformedContinues(later, dir.Now(), unused);
      KeptOn(start, s.disk, dir.disk);
      unused := unused + 2;
      handed := handed + if began.Some? then {began.value} else {};
    }
    StrandedStays(start, dir.disk);
  }

  /** A new anchor is provisioned, and then used. */
  method Start(ops: seq<Op>) returns (dir: PrivateDirectory, ghost run: seq<World>)
    ensures Run(run) && run[|run| - 1] == dir.Now()
  {
    dir := new PrivateDirectory();
    run := [FRESH_WORLD];
    FreshInv();
    var _ := Initialize(dir, 1);
    OperationExtendsRun(run, dir.Now());
    run :| Run(run) && run[|run| - 1] == dir.Now();
    run := Serve(dir, ops, 2, run);
  }
}
