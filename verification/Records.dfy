/**
 The records of the hook control store and the disk that holds them.

 Encodings and digests are injective, so a record stands for its bytes and a value stands for
 its digest. The installation identifier and the client adapter are the same in every record of
 one installation and are not repeated.
 */
module Records {
  import opened Wrappers

  type Uuid = nat

  const NIL: Uuid := 0

  type Cwd = string

  const U64_MAX: nat := 0xFFFF_FFFF_FFFF_FFFF

  const U32_MAX: nat := 0xFFFF_FFFF

  datatype Error =
    | IoFailed               // the replacement failed before its rename: the old record stays
    | DurabilityUncertain    // the rename took effect, the directory sync did not
    | Stopped                // the process stopped inside this call
    | InstallationInvalid
    | InstallationInactive
    | InstallationMismatch
    | SessionInvalid
    | SessionStale
    | SnapshotInvalid
    | IdentityUnmapped
    | ConfigInvalid
    | OutputTooLarge
    | WriterFailed
    | AuditFailed
    | StateCorrupt

  type Res<+T> = Result<T, Error>

  /** An error after which the write may have taken effect. */
  predicate Uncertain(e: Error) {
    e == DurabilityUncertain || e == Stopped
  }

  /** The process stopped, or a replacement or the writer failed. */
  predicate Faulted(e: Error) {
    e == IoFailed || Uncertain(e) || e == WriterFailed
  }

  /** The control key of a top-level session or of one child inside a session. */
  datatype Key = Root(session: string) | Child(session: string, agent: string)

  // ---- configuration -------------------------------------------------------------------

  datatype Binding = Binding(project: string, context: string, identity: string)

  /** The bounded audit store of a configured gate. */
  datatype Limits = Limits(maxRecords: nat, maxBytes: nat, recordBytes: nat)

  datatype Config = Config(root: nat, gate: Option<Limits>, delegation: bool, scopes: map<Cwd, Binding>) {
    function Resolve(cwd: Cwd): Res<Binding> {
      if cwd in scopes then Success(scopes[cwd]) else Failure(IdentityUnmapped)
    }
  }

  /** The trusted configuration and epoch a caller works under. */
  datatype ActiveInstallation = ActiveInstallation(config: Config, epoch: nat, nonce: Uuid)

  // ---- installation authority ----------------------------------------------------------

  datatype Lifecycle = Changing | Active | Retired

  datatype TransitionKind = Activation | Retirement

  datatype Manifest = Manifest(epoch: nat, nonce: Uuid, lifecycle: Lifecycle, config: Option<Config>)

  datatype ActivationJournal = ActivationJournal(epoch: nat, nonce: Uuid, kind: TransitionKind, resolved: bool)

  // ---- publication ---------------------------------------------------------------------

  /** `sound` says the pack passes its own shape, digest and size checks. */
  datatype Pack = Pack(project: string, context: string, content: string, sound: bool) {
    predicate ValidFor(binding: Binding) {
      sound && project == binding.project && context == binding.context
    }
  }

  datatype PublicationEvent = SessionStart | SubagentStart

  /** The exact bytes written to the client for a pack. */
  datatype Output = Output(event: PublicationEvent, pack: Pack)

  function EventOf(version: nat): PublicationEvent {
    if version == 1 then SessionStart else SubagentStart
  }

  // ---- sessions ------------------------------------------------------------------------

  datatype DeliveryState = Pending | Prepared | Emitted | Invalid

  datatype Lineage = Lineage(parent: Key, epoch: nat, nonce: Uuid, generation: Uuid, sequence: nat, binding: Binding)

  datatype Payload = Payload(version: nat, key: Key, epoch: nat, nonce: Uuid, generation: Uuid, sequence: nat,
                             binding: Binding, lineage: Option<Lineage>, output: Output, pack: Pack)

  datatype PayloadName = PayloadName(root: nat, key: Key, generation: Uuid)

  /** The payload digest, output digest and output length of a prepared head. The payload's file
      name follows from the key and the generation. */
  datatype Evidence = Evidence(payload: Payload, output: Output)

  datatype Head = Head(version: nat, epoch: nat, nonce: Uuid, generation: Uuid, sequence: nat, state: DeliveryState,
                       binding: Option<Binding>, evidence: Option<Evidence>, lineage: Option<Lineage>)

  datatype SessionJournal = SessionJournal(generation: Uuid, sequence: nat, resolved: bool)

  datatype Place = Place(epoch: nat, nonce: Uuid, generation: Uuid, sequence: nat, binding: Binding, cwd: Cwd)

  datatype PendingGeneration = PendingGeneration(key: Key, epoch: nat, nonce: Uuid, generation: Uuid, sequence: nat)

  datatype Snapshot = Snapshot(pack: Pack, epoch: nat, generation: Uuid, binding: Binding)

  datatype ParentProof = ParentProof(lineage: Lineage, pack: Pack, cwd: Cwd)

  // ---- checks --------------------------------------------------------------------------

  datatype GuardState = Idle | Checking | Completed | Void

  datatype Guard = Guard(epoch: nat, nonce: Uuid, generation: Uuid, sequence: nat, state: GuardState,
                         attempt: Option<Uuid>)

  datatype GuardJournal = GuardJournal(generation: Uuid, sequence: nat, attempt: Option<Uuid>, resolved: bool)

  datatype ClaimedCheck = ClaimedCheck(key: Key, epoch: nat, nonce: Uuid, sequence: nat, generation: Uuid,
                                       attempt: Uuid, pack: Pack, binding: Binding, cwd: Cwd,
                                       parent: Option<ParentProof>)

  // ---- audit ---------------------------------------------------------------------------

  /** One stored audit record: the attempt it is evidence for and its encoded length. */
  datatype AuditRecord = AuditRecord(attempt: Uuid, length: nat)

  datatype Counter = Counter(records: nat, bytes: nat)

  // ---- the disk ------------------------------------------------------------------------

  datatype Disk = Disk(
    manifest: Option<Manifest>,
    activation: Option<ActivationJournal>,
    heads: map<Key, Head>,
    journals: map<Key, SessionJournal>,
    guards: map<Key, Guard>,
    guardJournals: map<Key, GuardJournal>,
    places: map<Key, Place>,
    payloads: map<PayloadName, Payload>,
    records: map<nat, AuditRecord>,
    counter: Option<Counter>)

  const EMPTY_DISK: Disk := Disk(None, None, map[], map[], map[], map[], map[], map[], map[], None)

  /** One whole-record replacement: the record's name together with its new contents. */
  datatype Write =
    | PutManifest(manifest: Manifest)
    | PutActivation(activation: ActivationJournal)
    | PutHead(key: Key, head: Head)
    | PutJournal(key: Key, journal: SessionJournal)
    | PutGuard(key: Key, guard: Guard)
    | PutGuardJournal(key: Key, guardJournal: GuardJournal)
    | PutPlace(key: Key, place: Place)
    | PutPayload(name: PayloadName, payload: Payload)
    | PutRecord(index: nat, record: AuditRecord)
    | PutCounter(counter: Counter)

  function Apply(d: Disk, w: Write): Disk {
    match w
    case PutManifest(m) => d.(manifest := Some(m))
    case PutActivation(a) => d.(activation := Some(a))
    case PutHead(k, h) => d.(heads := d.heads[k := h])
    case PutJournal(k, j) => d.(journals := d.journals[k := j])
    case PutGuard(k, g) => d.(guards := d.guards[k := g])
    case PutGuardJournal(k, j) => d.(guardJournals := d.guardJournals[k := j])
    case PutPlace(k, p) => d.(places := d.places[k := p])
    case PutPayload(n, p) => d.(payloads := d.payloads[n := p])
    case PutRecord(i, r) => d.(records := d.records[i := r])
    case PutCounter(c) => d.(counter := Some(c))
  }

  // ---- history -------------------------------------------------------------------------

  datatype Publication = Publication(key: Key, generation: Uuid, output: Output)

  /**
   What has happened, kept beside the disk so that properties of whole runs can be stated:
   the identifiers that reached a record, the configuration each epoch was activated with,
   the outputs written and flushed in full, the generations whose Idle guard was stored,
   the pending generations handed to a caller, and the limits audit records were appended under.
   */
  datatype History = History(issued: set<Uuid>, configs: map<nat, Config>, flushed: set<Publication>,
                             guarded: set<(Key, Uuid)>, handed: set<PendingGeneration>, limits: set<Limits>)

  datatype World = World(disk: Disk, hist: History)

  const FRESH_WORLD: World := World(EMPTY_DISK, History({}, map[], {}, {}, {}, {}))

  function Noted(s: World, w: Write): History {
    var h := s.hist;
    match w
    case PutActivation(a) => h.(issued := h.issued + {a.nonce})
    case PutJournal(_, j) => h.(issued := h.issued + {j.generation})
    case PutManifest(m) => if m.config.Some? then h.(configs := h.configs[m.epoch := m.config.value]) else h
    case PutGuard(_, g) => if g.attempt.Some? then h.(issued := h.issued + {g.attempt.value}) else h
    case PutGuardJournal(k, j) =>
      if j.resolved && k in s.disk.guards && s.disk.guards[k].state == Idle &&
        s.disk.guards[k].generation == j.generation
      then h.(guarded := h.guarded + {(k, j.generation)}) else h
    case _ => h
  }

  /** A replacement together with what it adds to the history. */
  function After(s: World, w: Write): World {
    World(Apply(s.disk, w), Noted(s, w))
  }
}
