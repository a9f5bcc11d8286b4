/** Runs of the store that end in states its documentation does not expect. */
module Examples {
  import opened Wrappers
  import opened Records
  import opened Reading
  import opened Protocol
  import opened Invariants
  import opened Preservation
  import opened Registers
  import opened Stranding
  import opened Installation
  import opened Sessions
  import opened Checks

  // ---- a Retired anchor that is reopened -----------------------------------------------

  const EXAMPLE_CONFIG: Config := Config(0, None, false, map[])

  const EXAMPLE_SESSION: Key := Root("s")

  ghost function Provisioned(): World {
    ManifestMoved(FRESH_WORLD, Manifest(0, 1, Changing, None), Activation)
  }

  ghost function Activated(): World {
    var changing := Manifest(1, 2, Changing, None);
    ManifestMoved(ManifestMoved(Provisioned(), changing, Activation),
                  changing.(lifecycle := Active, config := Some(EXAMPLE_CONFIG)), Activation)
  }

  ghost function BegunAndCut(): World {
    After(Activated(), OpenHead(EXAMPLE_SESSION, FreshHead(1, 1, 2, 7, 1)))
  }

  ghost function RetiredWhileCut(): World {
    ManifestMoved(BegunAndCut(), Manifest(2, 5, Retired, None), Retirement)
  }

  ghost function Reopened(): World {
    ManifestMoved(RetiredWhileCut(), Manifest(3, 9, Changing, None), Activation)
  }

  lemma ActivatedIsReached()
    ensures Reaches(FRESH_WORLD, Activated())
    ensures Activated().disk == EMPTY_DISK.(manifest := Some(Manifest(1, 2, Active, Some(EXAMPLE_CONFIG))),
                                            activation := Some(ActivationJournal(1, 2, Activation, true)))
    ensures Activated().hist.issued == {1, 2}
  {
    var changing := Manifest(1, 2, Changing, None);
    var started := ManifestMoved(Provisioned(), changing, Activation);
    ManifestMoves(FRESH_WORLD, Manifest(0, 1, Changing, None), Activation);
    ManifestMoves(Provisioned(), changing, Activation);
    ReachesOn(FRESH_WORLD, Provisioned(), started);
    ManifestMoves(started, changing.(lifecycle := Active, config := Some(EXAMPLE_CONFIG)), Activation);
    ReachesOn(FRESH_WORLD, started, Activated());
  }

  /** A session start that stops after the first write of its head. */
  lemma CutBeginIsReached(s: World, k: Key, h: Head)
    requires MayWrite(s, OpenHead(k, h))
    ensures var t := After(s, OpenHead(k, h));
            && Reaches(s, t) && HeadRewrote(s, t, k, h, Failure(Stopped))
            && t.disk == s.disk.(journals := s.disk.journals[k := SessionJournal(h.generation, h.sequence, false)])
            && t.hist.issued == s.hist.issued + {h.generation}
  {
    ReachesNext(s, Wrote(OpenHead(k, h)));
  }

  lemma BegunAndCutIsReached()
    ensures BeginHead(Activated().disk, EXAMPLE_SESSION, 7) == Success(FreshHead(1, 1, 2, 7, 1))
    ensures HeadRewrote(Activated(), BegunAndCut(), EXAMPLE_SESSION, FreshHead(1, 1, 2, 7, 1), Failure(Stopped))
    ensures Reaches(FRESH_WORLD, BegunAndCut())
    ensures CleanManifest(BegunAndCut().disk) == Success(Manifest(1, 2, Active, Some(EXAMPLE_CONFIG)))
    ensures EXAMPLE_SESSION in BegunAndCut().disk.journals && EXAMPLE_SESSION !in BegunAndCut().disk.heads
    ensures BegunAndCut().hist.issued == {1, 2, 7}
  {
    ActivatedIsReached();
    CutBeginIsReached(Activated(), EXAMPLE_SESSION, FreshHead(1, 1, 2, 7, 1));
    ReachesOn(FRESH_WORLD, Activated(), BegunAndCut());
  }

  /** Retiring a clean anchor of the epoch before leaves everything but the anchor alone. */
  lemma RetiringIsReached(s: World, m: Manifest)
    requires m.lifecycle == Retired && m.config.None? && Unused(s, m.nonce)
    requires CleanManifest(s.disk).Success? && CleanManifest(s.disk).value.epoch + 1 == m.epoch
    ensures var t := ManifestMoved(s, m, Retirement);
            && Reaches(s, t) && CleanManifest(t.disk) == Success(m)
            && t.disk.journals == s.disk.journals && t.disk.heads == s.disk.heads
            && t.hist.issued == s.hist.issued + {m.nonce}
  {
    ManifestMoves(s, m, Retirement);
  }

  /** Initialize, activate, a session start interrupted at its first write, retire: a run of the store. */
  lemma RetiredWhileCutIsReached()
    ensures Reaches(FRESH_WORLD, RetiredWhileCut())
    ensures CleanManifest(RetiredWhileCut().disk) == Success(Manifest(2, 5, Retired, None))
    ensures EXAMPLE_SESSION in RetiredWhileCut().disk.journals && EXAMPLE_SESSION !in RetiredWhileCut().disk.heads
    ensures Unused(RetiredWhileCut(), 9)
  {
    BegunAndCutIsReached();
    RetiringIsReached(BegunAndCut(), Manifest(2, 5, Retired, None));
    ReachesOn(FRESH_WORLD, BegunAndCut(), RetiredWhileCut());
  }

  /** Failing any attempt on a key with a journal and no head moves a clean anchor to a new Changing epoch. */
  lemma FailingMovesTheAnchor(s: World, m: Manifest, k: Key, generation: Uuid, attempt: Uuid, nonce: Uuid)
    requires Inv(s) && CleanManifest(s.disk) == Success(m) && m.epoch < U64_MAX && Unused(s, nonce)
    requires k in s.disk.journals && k !in s.disk.heads
    ensures var changing := Manifest(m.epoch + 1, nonce, Changing, None);
            var t := ManifestMoved(s, changing, Activation);
            && Reaches(s, t) && Poisoned(s, t, nonce, Success(()))
            && FailedAttempt(s, t, k, generation, attempt, nonce, Failure(SnapshotInvalid))
            && CleanManifest(t.disk) == Success(changing)
  {
    var changing := Manifest(m.epoch + 1, nonce, Changing, None);
    NextEpochReaches(s, ManifestMoved(s, changing, Activation), m, changing, Activation, Success(()));
    assert Poisoned(s, ManifestMoved(s, changing, Activation), nonce, Success(()));
  }

  /**
   At the end of that run the anchor is Retired, and failing any attempt on the session reopens it
   to activation.
   */
  lemma RetiredReopenedExample()
    ensures var s, t := RetiredWhileCut(), Reopened();
            && Reaches(FRESH_WORLD, s) && Reaches(s, t)
            && CleanManifest(s.disk) == Success(Manifest(2, 5, Retired, None))
            && FailedAttempt(s, t, EXAMPLE_SESSION, 7, 8, 9, Failure(SnapshotInvalid))
            && ActivationStart(t.disk, 10).Success?
  {
    RetiredWhileCutIsReached();
    FreshInv();
    ReachesKeeps(FRESH_WORLD, RetiredWhileCut());
    FailingMovesTheAnchor(RetiredWhileCut(), Manifest(2, 5, Retired, None), EXAMPLE_SESSION, 7, 8, 9);
    PoisonReopensRetired(RetiredWhileCut(), Reopened(), 9, 10);
  }

  // ---- an anchor that is stranded ------------------------------------------------------

  /** A manifest transition that stops after its first write. */
  lemma CutTransitionIsReached(s: World, m: Manifest, kind: TransitionKind)
    requires MayWrite(s, OpenActivation(m, kind))
    ensures var t := After(s, OpenActivation(m, kind));
            && Reaches(s, t) && ManifestRewrote(s, t, m, kind, Failure(Stopped))
            && t.disk == s.disk.(activation := Some(ActivationJournal(m.epoch, m.nonce, kind, false)))
            && t.hist.issued == s.hist.issued + {m.nonce}
  {
    ReachesNext(s, Wrote(OpenActivation(m, kind)));
  }

  ghost function ActivationCut(): World {
    After(Provisioned(), OpenActivation(Manifest(1, 2, Changing, None), Activation))
  }

  ghost function RepairCut(): World {
    After(ActivationCut(), OpenActivation(Manifest(2, 3, Changing, None), Activation))
  }

  /** Initialize, an activation cut at its first write, its repair cut at its first write: the anchor is stranded. */
  lemma StrandedAnchorIsReached()
    ensures ActivationStart(Provisioned().disk, 2) == Success(Manifest(1, 2, Changing, None))
    ensures var changing := Manifest(1, 2, Changing, None);
            ManifestRewrote(Provisioned(), ActivationCut(), changing, Activation, Failure(Stopped))
    ensures RepairManifest(ActivationCut().disk, 3) == Success(Manifest(2, 3, Changing, None))
    ensures var recovered := Manifest(2, 3, Changing, None);
            ManifestRewrote(ActivationCut(), RepairCut(), recovered, Activation, Failure(Stopped))
    ensures Reaches(FRESH_WORLD, RepairCut()) && StrandedAnchor(RepairCut().disk)
  {
    ManifestMoves(FRESH_WORLD, Manifest(0, 1, Changing, None), Activation);
    CutTransitionIsReached(Provisioned(), Manifest(1, 2, Changing, None), Activation);
    ReachesOn(FRESH_WORLD, Provisioned(), ActivationCut());
    CutTransitionIsReached(ActivationCut(), Manifest(2, 3, Changing, None), Activation);
    ReachesOn(FRESH_WORLD, ActivationCut(), RepairCut());
  }

  // ---- a session that is stranded ------------------------------------------------------

  ghost function Begun(): World {
    HeadMoved(Activated(), EXAMPLE_SESSION, FreshHead(1, 1, 2, 7, 1))
  }

  ghost function RefreshCut(): World {
    After(Begun(), OpenHead(EXAMPLE_SESSION, FreshHead(1, 1, 2, 8, 2)))
  }

  ghost function SessionRepairCut(): World {
    After(RefreshCut(), OpenHead(EXAMPLE_SESSION, FreshHead(1, 1, 2, 9, 3)))
  }

  /** A session start under the example's installation, without a fault. */
  lemma BegunIsReached()
    ensures BeginHead(Activated().disk, EXAMPLE_SESSION, 7) == Success(FreshHead(1, 1, 2, 7, 1))
    ensures Reaches(FRESH_WORLD, Begun())
    ensures EpochLocked(Begun().disk) == Success((1, 2))
    ensures ReadHead(Begun().disk, EXAMPLE_SESSION) == Success(Some(FreshHead(1, 1, 2, 7, 1)))
    ensures Begun().hist.issued == {1, 2, 7}
  {
    ActivatedIsReached();
    HeadMoves(Activated(), EXAMPLE_SESSION, FreshHead(1, 1, 2, 7, 1));
    ReachesOn(FRESH_WORLD, Activated(), Begun());
  }

  /** Then a refresh cut at its first write. */
  lemma RefreshCutIsReached()
    ensures BeginHead(Begun().disk, EXAMPLE_SESSION, 8) == Success(FreshHead(1, 1, 2, 8, 2))
    ensures HeadRewrote(Begun(), RefreshCut(), EXAMPLE_SESSION, FreshHead(1, 1, 2, 8, 2), Failure(Stopped))
    ensures Reaches(FRESH_WORLD, RefreshCut())
    ensures EpochLocked(RefreshCut().disk) == Success((1, 2)) && RefreshCut().hist.issued == {1, 2, 7, 8}
    ensures var d := RefreshCut().disk;
            && EXAMPLE_SESSION in d.heads && d.heads[EXAMPLE_SESSION] == FreshHead(1, 1, 2, 7, 1)
            && EXAMPLE_SESSION in d.journals && d.journals[EXAMPLE_SESSION] == SessionJournal(8, 2, false)
  {
    BegunIsReached();
    CutBeginIsReached(Begun(), EXAMPLE_SESSION, FreshHead(1, 1, 2, 8, 2));
    ReachesOn(FRESH_WORLD, Begun(), RefreshCut());
  }

  /** Then its repair cut at its first write: the session is stranded. */
  lemma StrandedSessionIsReached()
    ensures RepairHead(RefreshCut().disk, "s", 9) == Success(FreshHead(1, 1, 2, 9, 3))
    ensures HeadRewrote(RefreshCut(), SessionRepairCut(), EXAMPLE_SESSION, FreshHead(1, 1, 2, 9, 3), Failure(Stopped))
    ensures Reaches(FRESH_WORLD, SessionRepairCut()) && StrandedSession(SessionRepairCut().disk, EXAMPLE_SESSION)
  {
    RefreshCutIsReached();
    CutBeginIsReached(RefreshCut(), EXAMPLE_SESSION, FreshHead(1, 1, 2, 9, 3));
    ReachesOn(FRESH_WORLD, RefreshCut(), SessionRepairCut());
  }
}
