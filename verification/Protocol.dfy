/**
 The delivery protocol as a transition system whose steps are single record replacements.

 A step names one replacement and the state that licenses it, without a program counter: every
 state of a run is therefore a possible interruption point, after which any other process may
 go on. The imperative operations of the other modules are proved to take only such steps.
 */
module Protocol {
  import opened Wrappers
  import opened Records
  import opened Reading

  datatype Event =
    | Wrote(write: Write)
    | Flushed(publication: Publication)   // a whole output was written and flushed
    | Handed(pending: PendingGeneration)  // a begun generation was returned to its caller
    | Auditing(limits: Limits)            // an audit append was begun under these limits

  function Next(s: World, e: Event): World {
    match e
    case Wrote(w) => After(s, w)
    case Flushed(p) => s.(hist := s.hist.(flushed := s.hist.flushed + {p}))
    case Handed(p) => s.(hist := s.hist.(handed := s.hist.handed + {p}))
    case Auditing(l) => s.(hist := s.hist.(limits := s.hist.limits + {l}))
  }

  // ---- installation --------------------------------------------------------------------

  /** Open the current epoch again, or the next one with a fresh nonce; close what the manifest matches. */
  ghost predicate MayActivation(s: World, a: ActivationJournal) {
    var d := s.disk;
    && a.nonce != NIL
    && if a.resolved then
         && d.activation == Some(a.(resolved := false))
         && d.manifest.Some? && d.manifest.value.epoch == a.epoch && d.manifest.value.nonce == a.nonce
       else if d.activation.None? then
         a.epoch == 0 && a.nonce !in s.hist.issued
       else
         || (a.epoch == d.activation.value.epoch + 1 && a.nonce !in s.hist.issued)
         || (a.epoch == d.activation.value.epoch && a.nonce == d.activation.value.nonce)
  }

  /** A new epoch starts Changing or Retired; only a Changing manifest becomes Active in its own epoch. */
  ghost predicate MayManifest(s: World, m: Manifest) {
    var d := s.disk;
    && ManifestShape(m)
    && d.activation.Some? && !d.activation.value.resolved
    && d.activation.value.epoch == m.epoch && d.activation.value.nonce == m.nonce
    && (m.lifecycle == Retired <==> d.activation.value.kind == Retirement)
    && if d.manifest.None? then m.lifecycle == Changing
       else
         var prior := d.manifest.value;
         || (prior.epoch < m.epoch && m.lifecycle != Active)
         || (prior.epoch == m.epoch && prior.nonce == m.nonce && prior.lifecycle == Changing && m.lifecycle == Active)
  }

  // ---- sessions ------------------------------------------------------------------------

  ghost predicate MayJournal(s: World, k: Key, j: SessionJournal) {
    var d := s.disk;
    && j.generation != NIL && j.sequence > 0
    && if j.resolved then
         && k in d.journals && d.journals[k] == j.(resolved := false)
         && k in d.heads && d.heads[k].generation == j.generation && d.heads[k].sequence == j.sequence
       else if k !in d.journals then
         j.sequence == 1 && j.generation !in s.hist.issued
       else
         || (j.sequence == d.journals[k].sequence + 1 && j.generation !in s.hist.issued)
         || (j.sequence == d.journals[k].sequence && j.generation == d.journals[k].generation)
  }

  /** A new generation starts Pending, under the current Active epoch. */
  ghost predicate Begins(s: World, k: Key, h: Head) {
    && (k in s.disk.heads ==> s.disk.heads[k].sequence < h.sequence)
    && h.state == Pending && h.binding.None? && h.lineage.None?
    && EpochLocked(s.disk) == Success((h.epoch, h.nonce))
  }

  function Voided(h: Head): Head {
    h.(state := Invalid, evidence := None)
  }

  /** The parent generation a head descends from is the one its parent's journal names now. */
  predicate LineageIsCurrent(d: Disk, h: Head) {
    h.lineage.Some? ==>
      && h.lineage.value.parent in d.journals
      && d.journals[h.lineage.value.parent].sequence == h.lineage.value.sequence
      && d.journals[h.lineage.value.parent].generation == h.lineage.value.generation
  }

  /** The exact payload of a published head is stored under the root of the head's epoch. */
  ghost predicate Evidenced(s: World, k: Key, h: Head) {
    && h.evidence.Some? && h.epoch in s.hist.configs
    && (var name := PayloadName(s.hist.configs[h.epoch].root, k, h.generation);
        name in s.disk.payloads && s.disk.payloads[name] == h.evidence.value.payload)
    && PayloadMatches(k, h, h.evidence.value.payload)
    && h.evidence.value.payload.pack.ValidFor(h.evidence.value.payload.binding)
  }

  predicate NeedsGuard(k: Key, config: Config) {
    k.Child? || config.gate.Some?
  }

  ghost predicate GuardStored(s: World, k: Key, generation: Uuid) {
    (k, generation) in s.hist.guarded && k in s.disk.guards && s.disk.guards[k].generation == generation
  }

  ghost predicate Delivered(s: World, k: Key, h: Head) {
    && h.evidence.Some? && h.epoch in s.hist.configs
    && Publication(k, h.generation, h.evidence.value.output) in s.hist.flushed
    && (NeedsGuard(k, s.hist.configs[h.epoch]) ==> GuardStored(s, k, h.generation))
  }

  /** Within a generation: bind, prepare, emit, void. */
  ghost predicate Moves(s: World, k: Key, prior: Head, next: Head) {
    || (prior.state == Pending && next.binding.Some? && next == prior.(binding := next.binding))
    || (&& prior.state == Pending && next.state == Prepared
        && next == prior.(state := Prepared, evidence := next.evidence, lineage := next.lineage)
        && Evidenced(s, k, next) && LineageIsCurrent(s.disk, next)
        && PendingGeneration(k, next.epoch, next.nonce, next.generation, next.sequence) in s.hist.handed)
    || (prior.state == Prepared && next == prior.(state := Emitted) && Delivered(s, k, next))
    || next == Voided(prior)
  }

  ghost predicate MayHead(s: World, k: Key, h: Head) {
    var d := s.disk;
    && k in d.journals && d.journals[k] == SessionJournal(h.generation, h.sequence, false)
    && ValidHead(k, h) && h.version == VersionOf(k)
    && (Begins(s, k, h) || (k in d.heads && Moves(s, k, d.heads[k], h)))
  }

  // ---- audit and guards ----------------------------------------------------------------

  predicate GuardMatches(g: Guard, j: GuardJournal) {
    j.generation == g.generation && j.sequence == g.sequence && j.attempt == g.attempt
  }

  ghost predicate MayGuardJournal(s: World, k: Key, j: GuardJournal) {
    var d := s.disk;
    && k in d.heads && d.heads[k].generation == j.generation && d.heads[k].sequence == j.sequence
    && (j.resolved ==>
          && k in d.guardJournals && d.guardJournals[k] == j.(resolved := false)
          && k in d.guards && GuardMatches(d.guards[k], j))
  }

  function RecordCount(d: Disk): nat {
    if d.counter.Some? then d.counter.value.records else 0
  }

  function ByteCount(d: Disk): nat {
    if d.counter.Some? then d.counter.value.bytes else 0
  }

  predicate Admits(l: Limits, records: nat, bytes: nat) {
    records <= l.maxRecords && bytes <= l.maxBytes
  }

  /** A counted audit record is evidence for the attempt. */
  ghost predicate Audited(d: Disk, attempt: Uuid) {
    exists i :: i in d.records && 1 <= i <= RecordCount(d) && d.records[i].attempt == attempt
  }

  ghost predicate MayGuard(s: World, k: Key, g: Guard) {
    var d := s.disk;
    && k in d.guardJournals && GuardMatches(g, d.guardJournals[k]) && !d.guardJournals[k].resolved
    && k in d.heads && ValidGuard(d.heads[k], g)
    && match g.state
       case Idle => d.heads[k].state == Prepared
       case Checking =>
         && g.attempt.value !in s.hist.issued && d.heads[k].state == Emitted
         && k in d.guards && d.guards[k].generation == g.generation
         && (d.guards[k].state == Idle || d.guards[k].state == Completed)
       case Completed =>
         d.heads[k].state == Emitted && k in d.guards && d.guards[k] == g.(state := Checking) &&
           Audited(d, g.attempt.value)
       case Void => k in d.guards && d.guards[k].generation == g.generation
  }

  // ---- every step ----------------------------------------------------------------------

  ghost predicate MayWrite(s: World, w: Write) {
    match w
    case PutActivation(a) => MayActivation(s, a)
    case PutManifest(m) => MayManifest(s, m)
    case PutJournal(k, j) => MayJournal(s, k, j)
    case PutHead(k, h) => MayHead(s, k, h)
    case PutGuardJournal(k, j) => MayGuardJournal(s, k, j)
    case PutGuard(k, g) => MayGuard(s, k, g)
    case PutPlace(k, p) => k in s.disk.heads
    case PutPayload(n, p) =>
      n.key in s.disk.heads && s.disk.heads[n.key].generation == n.generation && s.disk.heads[n.key].state == Pending
    case PutRecord(i, r) =>
      && i == RecordCount(s.disk) + 1 && i !in s.disk.records
      && exists l :: l in s.hist.limits && Admits(l, i, ByteCount(s.disk) + r.length) && r.length <= l.recordBytes
    case PutCounter(c) =>
      && c.records == RecordCount(s.disk) + 1 && c.records in s.disk.records
      && c.bytes == ByteCount(s.disk) + s.disk.records[c.records].length
      && exists l :: l in s.hist.limits && Admits(l, c.records, c.bytes)
  }

  ghost predicate May(s: World, e: Event) {
    match e
    case Wrote(w) => MayWrite(s, w)
    case Flushed(p) =>
      && p.key in s.disk.heads
      && var h := s.disk.heads[p.key];
         h.state == Prepared && h.generation == p.generation && h.evidence.Some? && h.evidence.value.output == p.output
    case Handed(p) => CurrentPending(s.disk, p).Success? && (p.key.Child? ==> p.sequence == 1)
    case Auditing(_) => true
  }

  // ---- runs ----------------------------------------------------------------------------

  ghost predicate Micro(s: World, t: World) {
    exists e :: May(s, e) && t == Next(s, e)
  }

  ghost predicate StepAt(p: seq<World>, i: nat)
    requires 0 < i < |p|
  {
    Micro(p[i - 1], p[i])
  }

  ghost predicate Path(p: seq<World>) {
    |p| > 0 && forall i :: 0 < i < |p| ==> StepAt(p, i)
  }

  /** A run of the store from a new anchor, interrupted anywhere. */
  ghost predicate Run(p: seq<World>) {
    Path(p) && p[0] == FRESH_WORLD
  }

  ghost predicate Reaches(s: World, t: World) {
    exists p :: Path(p) && p[0] == s && p[|p| - 1] == t
  }

  lemma ReachesSelf(s: World)
    ensures Reaches(s, s)
  {
    assert Path([s]);
  }

  lemma ReachesNext(s: World, e: Event)
    requires May(s, e)
    ensures Reaches(s, Next(s, e))
  {
    var p := [s, Next(s, e)];
    assert StepAt(p, 1);
    assert Path(p);
  }

  lemma ReachesOn(s: World, t: World, u: World)
    requires Reaches(s, t) && Reaches(t, u)
    ensures Reaches(s, u)
  {
    var p :| Path(p) && p[0] == s && p[|p| - 1] == t;
    var q :| Path(q) && q[0] == t && q[|q| - 1] == u;
    var r := p + q[1..];
    forall i | 0 < i < |r| ensures StepAt(r, i) {
      if i < |p| {
        assert StepAt(p, i);
      } else {
        assert StepAt(q, i - |p| + 1);
      }
    }
    assert Path(r) && r[0] == s && r[|r| - 1] == u;
  }

  /** Whatever an operation reaches from the end of a run extends that run. */
  lemma OperationExtendsRun(run: seq<World>, t: World)
    requires Run(run) && Reaches(run[|run| - 1], t)
    ensures exists longer :: Run(longer) && run <= longer && longer[|longer| - 1] == t
  {
    var q :| Path(q) && q[0] == run[|run| - 1] && q[|q| - 1] == t;
    var longer := run + q[1..];
    forall i | 0 < i < |longer| ensures StepAt(longer, i) {
      if i < |run| {
        assert StepAt(run, i);
      } else {
        assert StepAt(q, i - |run| + 1);
      }
    }
    assert Run(longer) && run <= longer && longer[|longer| - 1] == t;
  }
}
