# Verified model of managed memory delivery

The repository keeps long-term memories for coding agents and delivers guardrail packs to them
through lifecycle hooks. This project models the parts of it that carry state or proof burden and
proves what they promise.

**Hook delivery (`memory-hooks`).** A crash-prone store of small files shared by processes. Every
logical record (installation manifest, session head, check guard) is a record file plus a journal
file, rewritten as "journal unresolved, record, journal resolved". Any single replacement can fail
before its rename, fail after it, or be the last thing the process does.

- `Records` holds the records, the disk, and a history kept beside it: identifiers that reached a
  record, configurations by epoch, outputs written and flushed in full, Idle guards stored,
  generations handed out, and the limits audit records were appended under. Digests and encodings
  are injective, so a value stands for its digest.
- `Reading` holds the checked readers as pure decisions on a disk: `clean_manifest`, `read_head`,
  `read_guard`, `validate_payload`, `read_snapshot_locked`, `capture_parent`,
  `validate_parent_locked`, `read_child_snapshot`. Their meaning is stated by the lemmas of
  `Registers`, `Safety` and `Publishing`.
- `State` is the private directory: one class whose `Replace` picks any fault at every call and counts
  it, so that an operation also says exactly when it succeeds if none happens.
- `Protocol` is the store as a transition system whose steps are single replacements, without any
  program counter. Every state of a run is a possible interruption point, so runs cover all
  interleavings of all operations of any number of processes and all crashes between two writes.
- `Invariants`, `Preservation` and `Safety` prove what every step keeps and what follows for runs.
- `Registers` is the journalled record as a register, `Stranding` what no repair reaches any more,
  `Service` any sequence of operations, and `Examples` the runs that end in unexpected states.
- `Installation`, `Sessions`, `Publishing`, `Checks` and `Audit` are the operations,
  imperative and with all their error branches. Each one is proved to take only protocol steps
  (`Reaches`), so that the theorems about runs apply to it, and to return exactly what it should.
  `Decisions` states on the records themselves what each of their decisions accepts, and as what.

**Workflow provenance (`memoryd`).** `Lineage`, `BatchMarks`, `EditMarks` and `MemoryStore`: marks on
memories, kept closed under "plan superseded by a marked plan" and "decision reviewing a marked plan"
while rows are inserted in any order, edited, merged and deleted; and shown equal to a least fixpoint
computed at once. `EditMarks` bounds what an edit may mark. `SessionFlags`: one flag on which a
session, its log and the log's chunks agree.

**Algorithms.** `GraphExpansion` (layered search with decay), `RankFusion` (weighted reciprocal
ranks), both on `Ranking` (sorted score lists); `Chunking` (overlapping chunks of UTF-8 text, by
section 3 of RFC 3629); `DirectoryBindings` (configuration checks against directory resolution).

## Where the code and its documentation differ

- docs/hooks-trust.md:181 calls a Retired anchor a permanent tombstone. `poison_locked` does not
  look at the lifecycle, and two operations reach it without an Active check, so an unreadable
  session head turns a Retired anchor into a Changing one, which can be activated again.
  `Examples.RetiredReopenedExample` gives a run; `Checks.RetiredStaysExactly` and
  `Sessions.RejectedRetiredStaysExactly` give the exact condition: when no write fails, the anchor
  stays Retired if and only if the head is readable or its epoch is the last one; in that case it
  stays Retired however the call ends. Activate, retire, repair and reload do refuse a Retired
  anchor (`Installation.RetiredRefusesControl`).
- docs/hooks-delivery.md:49-53 offers repair for any unresolved record. It is accepted exactly when
  the journal is unresolved, at most one ahead of its record and not at its last value
  (`Installation.RepairAccepts`, `Sessions.RepairAcceptsSession`). One interruption of an activation, a retirement or a head write
  always leaves that (`OneInterruptionIsRepairable`, `CommitInterruptionIsRepairable`,
  `OneInterruptedSessionIsRepairable`). A repair interrupted right after its first write from a
  journal already ahead does not (`SecondInterruptionStrands`, `SecondInterruptedSessionStrands`).
  Runs do reach such states (`Examples.StrandedAnchorIsReached`, `Examples.StrandedSessionIsReached`),
  and what is stranded once is stranded for good, whatever operations follow (`Service.Serve`).
- `chunk_text` does not end for chunk size 0 and a non-empty text
  (`Chunking.EndsUnlessSizeIsZero`, both directions). For every other input the model's machine
  integers also show that its sums cannot wrap.

## Model

| member | source | states |
|---|---|---|
| State.PrivateDirectory.Replace | memory-hooks/src/state.rs:485-547 | an error before the rename leaves the old record, one after it the new record; a stop leaves either |
| State.PrivateDirectory.ResolveJournal | memory-hooks/src/state.rs:553-568 | an uncertain closing write is followed by an attempt to restore the unresolved journal; every way it can end |
| Registers.HeadIsFailStop | memory-hooks/src/snapshot.rs:558-603 | after any interruption a head reads as the old one, the new one or an error; success reads the new one; an error reads the new one only if its closing write stands; nothing else changes |
| Registers.GuardIsFailStop | memory-hooks/src/snapshot.rs:454-503 | the same fail-stop register law for check guards |
| Registers.ManifestIsFailStop | memory-hooks/src/installation.rs:212-242 | the same fail-stop register law for the installation manifest |
| Preservation.NextKeeps | memory-hooks/src/snapshot.rs:582-603 | every single replacement, flush and hand-out keeps the invariant and only advances the store |
| Preservation.RunKeeps | memory-hooks/src/installation.rs:86-114 | along every run from a new anchor, interrupted anywhere, the invariant holds and later states advance earlier ones |
| Safety.ReadableWasPublished | memory-hooks/src/snapshot.rs:1085-1170 | a readable snapshot's whole output was written and flushed and, with a gate or for a child, its Idle guard was stored, for the very generation read |
| Safety.ReadableIsTheOnlyOutput | memory-hooks/src/snapshot.rs:1388-1426 | whatever was flushed under the generation being read is exactly the output of the guardrail pack returned |
| Safety.EmittedWasDelivered | memory-hooks/src/snapshot.rs:1085-1170 | no head, readable or not, is ever Emitted before flush, guard and exact payload |
| Safety.EarlierEpochsStayUnreadable | memory-hooks/src/installation.rs:220-242 | from the first journal write of an activation on, no snapshot of an earlier epoch is readable in any later state |
| Safety.ActiveEpochsAreUnique | memory-hooks/src/installation.rs:244-313 | usable epochs never decrease and each has one configuration and nonce |
| Safety.SupersededStaysUnreadable | memory-hooks/src/snapshot.rs:582-616 | once a journal moves on, every head read later has a higher sequence and another generation |
| Safety.SameGeneration | memory-hooks/src/snapshot.rs:582-616 | a readable head of a known generation has its sequence, is no less far along, and carries the same evidence if both are published |
| Safety.VoidStaysVoid | memory-hooks/src/snapshot.rs:737-750 | a retired or failed generation is never Emitted again, by repair or otherwise |
| Safety.ChildEmittedOnce | memory-hooks/src/snapshot.rs:1011-1054 | over a whole run a child key has at most one Emitted head |
| Safety.ChildDiesWithItsParent | memory-hooks/src/snapshot.rs:1363-1386 | once the parent's journal moves past a lineage, no read, claim or finish with a proof of that lineage succeeds again, from any directory |
| Safety.EarlierChildIsDead | memory-hooks/src/snapshot.rs:1300-1386 | as soon as the parent's journal has moved on from where it stood while a child was Emitted, no read, claim or finish of that child succeeds again, from any directory and with or without any proof |
| Safety.ParentWindowIsQuiet | memory-hooks/src/snapshot.rs:1363-1386 | between two moments at which a child stands, its parent's head and sequence never changed |
| Safety.ClaimWindowIsQuiet | memory-hooks/src/snapshot.rs:1448-1549 | between a claim and a state that still carries it, no refresh, retirement, failure or activation took effect |
| Safety.AttemptEndsOnce | memory-hooks/src/snapshot.rs:1638-1705 | an attempt that left Checking is never checked again, so it finishes at most once |
| Safety.ClaimEndsOnce | memory-hooks/src/snapshot.rs:1638-1705 | once the guard of a claim is Completed or void, no finish of that claim is ever accepted |
| Safety.SecondClaimEndsTheFirst | memory-hooks/src/snapshot.rs:1448-1549 | at most one claim of a session is outstanding: a later one ends the earlier for good |
| Safety.CompletedStaysAudited | memory-hooks/src/snapshot.rs:1638-1705 | a Completed guard has counted audit evidence for its attempt and keeps it |
| Safety.AuditNeverChanges | memory-hooks/src/audit.rs:396-465 | audit records are never changed or dropped and the counter always equals their number and summed length |
| Safety.AuditStaysWithinLimits | memory-hooks/src/audit.rs:396-465 | in every state of a run, number, summed length and each record are within the limits appends were begun under: the fixed ones, or the largest |
| Installation.Initialize | memory-hooks/src/installation.rs:86-114 | a new anchor is epoch 0, Changing, without configuration |
| Installation.Activate | memory-hooks/src/installation.rs:287-313 | succeeds exactly when the start is accepted and a configuration is proposed, unless a write fails, and then leaves exactly it Active at the next epoch; without one the next epoch stays Changing; however it ends, the state comes from the first transition alone or from it and the commit, and the anchor is clean or repairable |
| Installation.Retire | memory-hooks/src/installation.rs:319-328 | moves to the next epoch Retired, or fails as a journalled rewrite may; wherever it is interrupted the anchor is clean or repairable |
| Installation.RepairIncomplete | memory-hooks/src/installation.rs:334-359 | moves past both visible epochs in the lifecycle of the interrupted transition, never to Active |
| Installation.PoisonLocked | memory-hooks/src/installation.rs:361-370 | any clean manifest, whatever its lifecycle, is moved to a new Changing epoch |
| Installation.ActiveLocked | memory-hooks/src/installation.rs:384-417 | grants exactly the stored Active authority, and only if the configuration that loads is the stored one; a missing or changed one is refused after a new Changing epoch is committed |
| Decisions.RefusalsAreExact | memory-hooks/src/installation.rs:384-417 | authority is found exactly for a clean Active manifest whose configuration loads; any other lifecycle is inactive |
| Decisions.CleanIsExact | memory-hooks/src/installation.rs:161-218 | the records of a clean manifest: well-formed, with a closed journal of its epoch and nonce |
| Decisions.StartsAreExact | memory-hooks/src/installation.rs:287-370 | what activation, retirement and poisoning move a clean manifest to, and when they refuse it |
| Decisions.RepairIsExact | memory-hooks/src/installation.rs:334-359 | repair moves one past the journal, Retired exactly after an interrupted retirement |
| Installation.RepairAccepts | memory-hooks/src/installation.rs:334-359 | exactly when a reachable installation can be repaired |
| Installation.OneInterruptionIsRepairable | memory-hooks/src/installation.rs:334-359 | one interruption of a transition from a clean manifest to its next epoch leaves a clean or repairable anchor, and repair moves past it |
| Installation.CommitInterruptionIsRepairable | memory-hooks/src/installation.rs:287-359 | one interruption of the commit from Changing to Active leaves a clean or repairable anchor, and repair makes it Changing one epoch up |
| Installation.SecondInterruptionStrands | memory-hooks/src/installation.rs:334-359 | a repair interrupted after its first write, from a journal already ahead, leaves a stranded anchor, which is neither clean nor repairable |
| Examples.StrandedAnchorIsReached | memory-hooks/src/installation.rs:334-359 | initialize, an activation cut at its first write and its repair cut at its first write are a run that ends with a stranded anchor |
| Installation.StrandedAnchorRefuses | memory-hooks/src/installation.rs:212-417 | activation, retirement, repair, poisoning and the Active check all refuse a stranded anchor |
| Sessions.RetireCurrentLocked | memory-hooks/src/snapshot.rs:737-750 | retires an Emitted head, leaves any other readable one, poisons on an unreadable one |
| Sessions.RejectEvent | memory-hooks/src/snapshot.rs:848-863 | a malformed event retires the current head, under an Active installation only |
| Sessions.RejectGeneration | memory-hooks/src/snapshot.rs:869-894 | only the observed generation is retired; runs without an Active check |
| Sessions.RejectedRetiredStaysExactly | memory-hooks/src/snapshot.rs:883-894 | however it ends, rejecting leaves a Retired anchor Retired if the head is readable or the epoch is the last; otherwise, unless a write fails, it becomes Changing |
| Sessions.BeginSession | memory-hooks/src/snapshot.rs:968-1004 | hands out a fresh Pending generation one sequence up only once its head is readable, touching no other session |
| Sessions.BeginChild | memory-hooks/src/snapshot.rs:1011-1054 | a generation is handed out exactly for a child with neither head nor journal, unless a write fails; a repeated start leaves a Pending tombstone and is refused as invalid |
| Decisions.BeginIsExact | memory-hooks/src/snapshot.rs:968-1054 | in a reachable store a begin needs an Active epoch and a readable or absent head below the last sequence, and writes exactly its successor |
| Decisions.HeadIsExact | memory-hooks/src/snapshot.rs:513-580 | a head is read exactly when it is valid and its own journal is closed |
| Decisions.GuardIsExact | memory-hooks/src/snapshot.rs:436-476 | a guard is read exactly when it is of this head, fits its state and its journal is closed |
| Decisions.BoundIsExact | memory-hooks/src/snapshot.rs:1060-1076 | binding needs the current epoch, a mapped directory and the current pending head |
| Sessions.BeginOvertakes | memory-hooks/src/snapshot.rs:968-1004 | a begin with any effect has moved the journal past the previous generation |
| Sessions.BeginKillsEarlierChildren | memory-hooks/src/snapshot.rs:968-1004 | a begin on the parent with any effect, interrupted or not, puts every child published before it out of reach in every later state: no read, claim or finish of it succeeds |
| Sessions.AttachBinding | memory-hooks/src/snapshot.rs:1060-1076 | binds exactly the current pending generation of the current epoch |
| Sessions.RepairSession | memory-hooks/src/snapshot.rs:904-962 | writes a fresh Pending head one sequence past the journal, or refuses without a change |
| Sessions.RepairAcceptsSession | memory-hooks/src/snapshot.rs:904-962 | exactly when a reachable session can be repaired |
| Sessions.OneInterruptedSessionIsRepairable | memory-hooks/src/snapshot.rs:904-962 | one interrupted head write leaves a readable or repairable session |
| Sessions.SecondInterruptedSessionStrands | memory-hooks/src/snapshot.rs:904-962 | a session repair interrupted after its first write, from a journal already ahead, leaves a stranded session, which is neither readable nor repairable |
| Examples.StrandedSessionIsReached | memory-hooks/src/snapshot.rs:904-962 | a session started, its refresh cut at its first write and the repair of that cut at its first write are a run that ends with a stranded session |
| Sessions.StrandedSessionRefuses | memory-hooks/src/snapshot.rs:605-1054 | begin, bind, complete and repair all refuse a stranded session |
| Service.Serve | memory-hooks/src/snapshot.rs:904-962 | whatever sequence of the real operations follows a run, each interrupted or not, it extends the run; a stranded anchor or session keeps its records and stays unreadable, and an orphan audit record ends appending for good |
| Service.Start | memory-hooks/src/installation.rs:86-114 | initializing a new anchor and then performing any sequence of operations is a run |
| Publishing.ReplacePlace | memory-hooks/src/snapshot.rs:397-434 | success means the recorded working directory reads back as the one given |
| Publishing.StageOutput | memory-hooks/src/snapshot.rs:1109-1143 | payload, Prepared head, place, whole output, in this order; a definite failure leaves nothing published |
| Publishing.CommitEmitted | memory-hooks/src/snapshot.rs:1144-1169 | Emitted comes last, after flush and guard; a definite failure leaves nothing published |
| Publishing.EmittedIsReadable | memory-hooks/src/snapshot.rs:1388-1426 | a current Emitted head with a permitting guard reads back its exact guardrail pack, epoch, generation and binding |
| Publishing.CompleteSession | memory-hooks/src/snapshot.rs:1085-1170 | unless a write fails, succeeds exactly when the publication is accepted; success means the snapshot reads back exactly as published; a definite error means nothing is published; refusals change nothing; no other session is touched |
| Decisions.PrepareSessionIsExact | memory-hooks/src/snapshot.rs:1085-1136 | a session is publishable exactly from its current pending head, bound to this directory, with a sound pack of that project and context; and the Prepared head it becomes |
| Decisions.SnapshotIsExact | memory-hooks/src/snapshot.rs:1388-1426 | a snapshot is read exactly from a closed Emitted head of the current epoch with a permitting guard and the exact payload |
| Decisions.RefusedReads | memory-hooks/src/snapshot.rs:1388-1426 | an unreadable record is reported as an invalid snapshot and an unmapped directory as unmapped |
| Decisions.PlaceIsExact | memory-hooks/src/snapshot.rs:365-395 | a working directory is read back exactly for the head it was recorded with |
| Publishing.RecordEvidence | memory-hooks/src/audit.rs:212-241 | unless a write fails, succeeds exactly when the audit store has room for the record; success means counted evidence for the attempt; nothing but the audit store changes |
| Publishing.CompleteChild | memory-hooks/src/snapshot.rs:1177-1282 | as for a session, from a validated parent; unless a write fails it succeeds exactly when the publication is accepted and the audit store has room, and the child then stands beside its parent with its evidence counted |
| Decisions.PrepareChildIsExact | memory-hooks/src/snapshot.rs:1177-1234 | a child is publishable exactly from its current pending head with its validated parent's binding and pack; and the Prepared head it becomes |
| Publishing.ReadSession | memory-hooks/src/snapshot.rs:1291-1297 | reading changes nothing under a usable installation and refuses under any other |
| Publishing.CaptureSession | memory-hooks/src/snapshot.rs:1329-1361 | under a usable installation, captures the session exactly when it is readable at its recorded directory and changes nothing; a captured proof validates at once; a malformed session name or a refused authority captures nothing |
| Decisions.CaptureIsExact | memory-hooks/src/snapshot.rs:1329-1361 | a proof is captured exactly from a readable root snapshot at its recorded directory, and holds its identity and pack |
| Decisions.ParentIsExact | memory-hooks/src/snapshot.rs:1363-1386 | a proof validates exactly while that head, its place and its snapshot are still the ones captured |
| Decisions.ReadChildIsExact | memory-hooks/src/snapshot.rs:1300-1322 | a child is read exactly with a validated parent of its own lineage and the same pack |
| Publishing.ReadChildSession | memory-hooks/src/snapshot.rs:1300-1322 | a child is read only against its validated parent, and reading changes nothing |
| Checks.ClaimHashCheck | memory-hooks/src/snapshot.rs:1448-1549 | unless a write fails, grants exactly when installation, session, parent and guard allow it; a grant is for the very snapshot readable before and hides it after; every refusal says what it leaves behind, including the void of a generation found being checked |
| Checks.FailHashAttempt | memory-hooks/src/snapshot.rs:1583-1618 | voids the generation exactly when this attempt still stands on it, and otherwise changes nothing readable |
| Checks.RetiredStaysExactly | memory-hooks/src/snapshot.rs:1583-1618 | however it ends, failing an attempt leaves a Retired anchor Retired if the head is readable or the epoch is the last; otherwise, unless a write fails, it becomes Changing |
| Examples.RetiredReopenedExample | memory-hooks/src/snapshot.rs:1583-1618 | at the end of a run, a Retired anchor that failing an attempt reopens to activation |
| Examples.BegunAndCutIsReached | memory-hooks/src/snapshot.rs:968-1004 | initialize, activate and a session start interrupted at its first write are a run |
| Examples.RetiredWhileCutIsReached | memory-hooks/src/installation.rs:319-328 | retiring then continues that run to a Retired anchor with an unreadable session |
| Checks.FinishMeansQuietSinceClaim | memory-hooks/src/snapshot.rs:1448-1705 | a finish that may record evidence certifies that since its claim was granted the head, its parent's head, the attempt, the manifest and the epoch never changed |
| Checks.GrantedCanFinish | memory-hooks/src/snapshot.rs:1448-1705 | a claim just granted is one that a finish accepts |
| Decisions.FinishIsExact | memory-hooks/src/snapshot.rs:1638-1696 | a finish is accepted exactly if the claimed head is current, its guard is checking this attempt, and payload, parent and binding are as claimed |
| Checks.FinishChecked | memory-hooks/src/snapshot.rs:1638-1705 | unless a write fails, succeeds exactly when the finish is accepted, nothing is refused and the audit store has room; success means Completed with counted evidence and the claimed snapshot readable again; a refused or failed finish changes no head, and what it does change is exact |
| Audit.MeasureRecords | memory-hooks/src/audit.rs:419-433 | the loop computes the summed length of the counted records or refuses |
| Audit.AppendRecord | memory-hooks/src/audit.rs:396-465 | unless a write fails, succeeds exactly when the append is accepted; appends record then counter, or refuses without a change; every interruption it can leave |
| Audit.RoomIsExact | memory-hooks/src/audit.rs:396-449 | in a reachable store an append is accepted exactly when no orphan record exists and the record, the stored ones, their number and their sum fit the limits |
| Audit.MeasureAgrees | memory-hooks/src/audit.rs:419-433 | in a reachable store the measured length always agrees with the counter |
| Audit.AppendWithinLimits | memory-hooks/src/audit.rs:396-465 | an accepted append keeps number, summed length and record length within the limits, however it ends |
| Audit.OrphanRefusesAppends | memory-hooks/src/audit.rs:396-465 | at most one record lies beyond the counter, and it refuses every append |
| Lineage.EntitledIsLeast | memoryd/src/db.rs:1569-1657 | entitlement by lineage is the least marking that respects the provenance rules |
| Lineage.ClosedMarksEntitled | memoryd/src/db.rs:1569-1657 | in a closed store every directly scoped, superseded or reviewing memory is marked |
| Lineage.PromotionCloses | memoryd/src/db.rs:1569-1595 | promoting the one row that may be open closes the marks and clears none |
| Lineage.InsertionKeepsClosed | memoryd/src/db.rs:637-673 | an insertion in any order, with dangling references and cycles, keeps the marks closed |
| BatchMarks.InsertionKeepsExact | memoryd/src/db.rs:637-673 | if marks were exactly those entitled, they are after an insertion |
| BatchMarks.InsertionsAreABatch | memoryd/src/db.rs:637-673 | incremental marking of an insert-only history equals the least fixpoint over its memories |
| BatchMarks.InsertionOrderDoesNotMatter | memoryd/src/db.rs:637-673 | two histories of the same memories end with the same rows and marks |
| BatchMarks.EntitledWhenTriggered | memoryd/src/db.rs:1601-1615 | a new plan is entitled exactly when the trigger test of its promotion holds |
| MemoryStore.Store.CollectLineage | memoryd/src/db.rs:1617-1642 | the loop ends on cyclic and dangling graphs with exactly the stored plans reachable from the start |
| MemoryStore.Store.PromotePlanLineage | memoryd/src/db.rs:1597-1657 | marks exactly the reachable plans and the decisions reviewing one, if the start is marked or superseded by a marked plan |
| MemoryStore.Store.PromoteRelationships | memoryd/src/db.rs:1569-1595 | dispatches promotion by category |
| MemoryStore.Store.InsertWithProvenance | memoryd/src/db.rs:637-673 | a duplicate is refused unchanged; otherwise the row is inserted and promoted, keeping closed and exact marks |
| MemoryStore.Store.Insert | memoryd/src/db.rs:612-630 | inserts one unmarked row or refuses a duplicate |
| MemoryStore.Store.StoreMemory | memoryd/src/app.rs:563-611 | the category dispatch gives every new memory the same provenance-aware insertion |
| MemoryStore.Store.Update | memoryd/src/db.rs:1304-1333 | edits a row without a policy key and leaves its mark |
| MemoryStore.Store.UpdateWithProvenance | memoryd/src/db.rs:1435-1503 | new tags of a plan or decision raise and propagate its mark and clear none; in a closed store the marks become exactly the least set the new rows justify over the old marks, and exact marks stay exact when tags only grow; anything else is a plain edit |
| EditMarks.JustifiedIsLeast | memoryd/src/db.rs:1435-1503 | the marks justified by old marks are the least set that holds them and respects the provenance rules |
| EditMarks.UpdateIsJustified | memoryd/src/db.rs:1435-1503 | an edit marks nothing but what is justified over the new rows, and in a closed store all of it |
| MemoryStore.Store.UpdateMemory | memoryd/src/app.rs:618-715 | the exact outcome and new rows for missing, unchanged, policy-keyed and editable memories, also when the row is gone or keyed since it was first read; marks stay closed and grow by no more than the edit justifies |
| MemoryStore.Store.Delete | memoryd/src/db.rs:152-158 | removes an unkeyed row and keeps the marks closed |
| MemoryStore.Store.DreamMerge | memoryd/src/db.rs:1343-1389 | merges exactly two distinct unprotected rows, or changes nothing, keeping the marks closed |
| MemoryStore.Store.DreamPrune | memoryd/src/db.rs:1396-1422 | prunes exactly unprotected rows; no marked row is lost |
| SessionFlags.SessionStore.ReconcileParents | memoryd/src/db.rs:1540-1567 | a resolved flag is raised on both parents and cascades to the chunks |
| SessionFlags.SessionStore.CreateSession | memoryd/src/db.rs:91-145 | every flag stored for an id equals "some write carried workflow evidence", after creation |
| SessionFlags.SessionStore.AppendMessage | memoryd/src/db.rs:462-552 | the same after an append; an unknown session changes nothing |
| SessionFlags.SessionStore.PublishLog | memoryd/src/db.rs:1169-1267 | the same after publication; a stale normalized session is refused unchanged |
| GraphExpansion.LayerIsDistance | memoryd/src/edges.rs:38-87 | layer k is exactly the set at distance k from the seeds in the filtered graph |
| GraphExpansion.WithinIsReachable | memoryd/src/edges.rs:54-82 | what is found within k hops is exactly what a walk of at most k edges of the filtered graph reaches |
| GraphExpansion.WithinIsReachedBy | memoryd/src/edges.rs:38-117 | the filtered search reaches exactly what the raw links of weight at least 1/2 and the scope rule reach |
| GraphExpansion.ReachedMayBeListed | memoryd/src/edges.rs:89-117 | whatever is reached beyond the seeds is of the source project, general when included, or foreign only when crossing is on and allowed |
| GraphExpansion.ScoreIsDecayed | memoryd/src/edges.rs:38-87 | with nonnegative seeds a score derived over k hops is at most 0.7^k times the largest seed score |
| GraphExpansion.FoundAtItsDistance | memoryd/src/edges.rs:38-87 | every listed memory sits at its minimal distance, within the hop limit, with its score bounded by that distance |
| GraphExpansion.GraphExpand | memoryd/src/edges.rs:38-87 | lists exactly the non-seed memories reached over links of weight at least 1/2 within the hop limit, each once and in descending score; each belongs to the source project or one the policy names, and has a seed or listed parent whose score times 0.7, 0.63 or 0.35 is its own |
| RankFusion.OuterRrf | memoryd/src/app.rs:994-1025 | the best `limit` listed memories (all for a negative limit), each once, with its exact sum and first contents, in descending order |
| RankFusion.ScoreIsReciprocals | memoryd/src/app.rs:998-1009 | the score of a memory is the weighted sum of 1/(60 + rank) over the lists, twice as much for the first |
| RankFusion.TopIsExact | memoryd/src/app.rs:1011-1025 | the output holds min(limit, listed) memories |
| RankFusion.AheadScoresHigher | memoryd/src/app.rs:998-1009 | a memory listed ahead of another in every variant listing the other scores strictly higher |
| RankFusion.AheadComesFirst | memoryd/src/app.rs:994-1025 | such a memory precedes the other in every output that holds the other |
| Ranking.SortDescending | memoryd/src/app.rs:1011-1017 | a descending permutation of its input |
| Chunking.BoundaryCut | memory-common/src/transcript.rs:163-166 | a boundary splits encoded text exactly between two characters |
| Chunking.SliceIsUtf8 | memory-common/src/transcript.rs:168 | the text between two boundaries is well-formed again |
| Chunking.BoundaryAhead | memory-common/src/transcript.rs:179-183 | a boundary is never more than three bytes ahead |
| Chunking.SnapForward | memory-common/src/transcript.rs:163-166 | the snapping loop stops at the first boundary |
| Chunking.EndsUnlessSizeIsZero | memory-common/src/transcript.rs:161-185 | the loop ends exactly when the text is empty or the chunk size positive |
| Chunking.SpansCut | memory-common/src/transcript.rs:161-185 | the spans cut the text from start to end with bounded sizes, no gap, and overlaps within three bytes of the request |
| Chunking.ChunkText | memory-common/src/transcript.rs:152-188 | every chunk is well-formed and at most chunk_size + 3 bytes, neighbours share the requested overlap within 3 bytes, and dropping overlaps rebuilds the text; no machine sum wraps |
| Chunking.TruncateToCharBoundary | memory-common/src/transcript.rs:190-199 | keeps the longest prefix within the limit that cuts no character, at most three bytes short of it |
| DirectoryBindings.CheckBindings | memory-hooks/src/config.rs:958-1007 | accepts exactly the lists without duplicate identities or overlapping directories, with the error of the first failing check |
| DirectoryBindings.CoversIsExact | memory-hooks/src/identity.rs:636-646 | a directory binding covers exactly itself and what lies below it |
| DirectoryBindings.OverlapsIsExact | memory-hooks/src/config.rs:990-1007 | two directories overlap exactly when one lies at or below the other |
| DirectoryBindings.CoveredTwice | memory-hooks/src/config.rs:990-1007 | two directories cover a common working directory exactly when they are the same or overlap |
| DirectoryBindings.AcceptedIsUnambiguous | memory-hooks/src/config.rs:958-1007 | the checks accept exactly the lists in which no repository is bound twice and no working directory is covered twice |
| DirectoryBindings.ResolveDirectory | memory-hooks/src/identity.rs:636-652 | none, the one, or ambiguous, by the number of covering bindings |
| DirectoryBindings.AcceptedResolves | memory-hooks/src/identity.rs:636-652 | after accepted checks resolution is never ambiguous and finds the one covering binding |
| DirectoryBindings.RejectedIsAmbiguous | memory-hooks/src/config.rs:990-1007 | a list rejected for its directories does make some working directory ambiguous |

## Left out

- Corrupt or unparsable record bytes and read errors: a record is absent or well-typed, and may still fail every semantic check.
- Ownership, modes, ACLs, symlinks, inodes, file locks and lock timeouts: operations exclude each other only as far as one write at a time.
- Power loss that undoes an unsynced rename; an unsynced rename is visible and reported as an error.
- JSON, SHA-256 and UUID generation: injective encodings and fresh identifiers; the installation identifier and client adapter are constants.
- The ambiguity markers of the delegation protocol (`mark_ambiguous`, `is_ambiguous`), which only make a reader refuse more.
- Path canonicalization, Git probing and the Git branch of resolution: in the hook store a binding is a function of configuration and working directory.
- Loading, validating and re-identifying the configuration file: `loaded` is the configuration it yields, or none.
- The contents of packs and audit records and their validation (`validate_record`, Rust evidence, policy resolution): `sound`, a length and an attempt stand for them.
- Timeouts and process supervision: an abandoned worker is a claim that never finishes.
- Policy-keyed publication and adoption: a keyed row is one the plain writes refuse.
- Tag parsing: a memory carries its direct-scope bit, superseded set and reviewed set.
- Session message rows, timestamps, log text and embeddings: only the workflow flags and identifiers.
- SQL neighbour queries, their limit of ten and their workflow-artifact filter: a graph is the neighbour lists as fetched.
- Floating-point rounding and NaN: scores are real numbers.
- HTTP and MCP handlers, reranking, query expansion, text formatting.
- State.PrivateDirectory.Replace: record names and the size limit are not modelled; any record may fail at any call.
- Registers.HeadIsFailStop: says an unsuccessful write may still be readable if the closing journal write took effect and restoring it failed, because that is what the code does.
- Preservation.RunKeeps: protocol steps allow more than the operations do (any process may close a journal that matches its record), so runs over-approximate; "unreadable after an error" is stated for the registers instead.
- Audit.AppendRecord: audit appends run under the installation lock here; the separate audit lock is not modelled.
- Readbacks after a successful write: they are proved to agree, so their error branches are not written.
- `delivery()` of an active configuration: `active_locked` already demands it, so its missing case is not modelled.
- MemoryStore.Store.CollectLineage: rows are picked in any order, where the source orders them by identifier.
- MemoryStore.Store.UpdateMemory: takes a category to be immutable, as the source does, between its first read and its write.
- Service.Serve: speaks of the states between operations; inside a repair the journal may be two ahead until its next write. A caller completes only generations handed to it.
- GraphExpansion.GraphExpand: leaves open which of several parents at equal distance gives a memory its score.
- Ranking.SortDescending: stability of the sort is not stated, since the order of its input comes from a hash map.
- RankFusion.AheadScoresHigher: asks for result lists without repeated memories, as the searches return them; with repetitions a later memory can collect more than one contribution.
- Chunking.TruncateToCharBoundary: returns the kept prefix, where the source shortens the string in place.
- Chunking.ChunkText: asks for a positive chunk size when the text is non-empty, since otherwise the source does not return.
