/** What every state of a run satisfies, and how any later state relates to an earlier one. */
module Invariants {
  import opened Wrappers
  import opened Records
  import opened Reading
  import opened Protocol

  // ---- one state -----------------------------------------------------------------------

  ghost predicate ConfigInv(s: World, epoch: nat) {
    && s.disk.manifest.Some?
    && (epoch < s.disk.manifest.value.epoch
        || (epoch == s.disk.manifest.value.epoch && s.disk.manifest.value.lifecycle == Active))
  }

  ghost predicate InstallationInv(s: World) {
    var d := s.disk;
    && (d.manifest.Some? ==>
          && d.activation.Some?
          && ManifestShape(d.manifest.value)
          && d.manifest.value.nonce in s.hist.issued
          && d.manifest.value.epoch <= d.activation.value.epoch
          && (d.manifest.value.epoch == d.activation.value.epoch ==> d.manifest.value.nonce == d.activation.value.nonce)
          && (d.manifest.value.lifecycle == Active ==>
                d.manifest.value.epoch in s.hist.configs
                && s.hist.configs[d.manifest.value.epoch] == d.manifest.value.config.value))
    && (d.activation.Some? ==>
          && d.activation.value.nonce != NIL && d.activation.value.nonce in s.hist.issued
          && (d.activation.value.resolved ==>
                d.manifest.Some? && d.manifest.value.epoch == d.activation.value.epoch))
    && (forall e :: e in s.hist.configs ==> ConfigInv(s, e))
  }

  ghost predicate HeadInv(s: World, k: Key) {
    k in s.disk.heads ==>
      var h := s.disk.heads[k];
      && ValidHead(k, h) && h.version == VersionOf(k)
      && (h.state == Pending ==> h.lineage.None?)
      && h.generation in s.hist.issued
      && k in s.disk.journals
      && h.sequence <= s.disk.journals[k].sequence
      && (h.sequence == s.disk.journals[k].sequence <==> h.generation == s.disk.journals[k].generation)
      && (Published(h.state) ==> Evidenced(s, k, h) && (k.Child? ==> h.sequence == 1))
      && (h.state == Emitted ==> Delivered(s, k, h))
  }

  ghost predicate JournalInv(s: World, k: Key) {
    k in s.disk.journals ==>
      var j := s.disk.journals[k];
      && j.generation in s.hist.issued && j.generation != NIL && j.sequence > 0
      && (j.resolved ==> k in s.disk.heads && s.disk.heads[k].sequence == j.sequence)
  }

  ghost predicate GuardInv(s: World, k: Key) {
    && (k in s.disk.guards ==>
          var g := s.disk.guards[k];
          && k in s.disk.guardJournals && k in s.disk.heads
          && g.generation in s.hist.issued
          && (g.generation == s.disk.heads[k].generation ==> ValidGuard(s.disk.heads[k], g))
          && (k in s.disk.journals && g.generation == s.disk.journals[k].generation ==>
               g.generation == s.disk.heads[k].generation)
          && (g.attempt.Some? ==> g.attempt.value in s.hist.issued)
          && (g.state == Checking || g.state == Completed <==> g.attempt.Some?)
          && (g.state == Completed ==> Audited(s.disk, g.attempt.value)))
    && (k in s.disk.guardJournals && s.disk.guardJournals[k].resolved ==>
          k in s.disk.guards && GuardMatches(s.disk.guards[k], s.disk.guardJournals[k]))
  }

  ghost predicate KeyInv(s: World, k: Key) {
    HeadInv(s, k) && JournalInv(s, k) && GuardInv(s, k)
  }

  /** No stored lineage is ahead of its parent's journal. */
  ghost predicate LineageInv(d: Disk, k: Key) {
    k in d.heads && d.heads[k].lineage.Some? ==>
      var lineage := d.heads[k].lineage.value;
      lineage.parent in d.journals && lineage.sequence <= d.journals[lineage.parent].sequence
  }

  ghost predicate HandedInv(s: World) {
    forall p :: p in s.hist.handed && p.key.Child? ==> p.sequence == 1
  }

  function Measured(records: map<nat, AuditRecord>, n: nat): nat
    requires forall i :: 1 <= i <= n ==> i in records
  {
    if n == 0 then 0 else Measured(records, n - 1) + records[n].length
  }

  /** The first `n` records are all present and their lengths add up to the counter. */
  ghost predicate AuditInv(d: Disk) {
    && (forall i :: i in d.records ==> 1 <= i <= RecordCount(d) + 1)
    && (forall i :: 1 <= i <= RecordCount(d) ==> i in d.records)
    && ByteCount(d) == Measured(d.records, RecordCount(d))
  }

  ghost predicate Inv(s: World) {
    && InstallationInv(s)
    && (forall k :: KeyInv(s, k))
    && (forall k :: LineageInv(s.disk, k))
    && HandedInv(s)
    && AuditInv(s.disk)
  }

  // ---- two states ----------------------------------------------------------------------

  ghost predicate HistoryGrows(a: History, b: History) {
    && a.issued <= b.issued && a.flushed <= b.flushed && a.guarded <= b.guarded && a.handed <= b.handed &&
         a.limits <= b.limits
    && (forall e :: e in a.configs ==> e in b.configs && b.configs[e] == a.configs[e])
  }

  ghost predicate ActivationAdvances(s: World, t: World) {
    s.disk.activation.Some? ==>
      && t.disk.activation.Some?
      && var a, b := s.disk.activation.value, t.disk.activation.value;
         && a.epoch <= b.epoch
         && (a.epoch == b.epoch ==> a.nonce == b.nonce)
         && (a.epoch < b.epoch ==> b.nonce !in s.hist.issued)
  }

  ghost predicate ManifestAdvances(d: Disk, d': Disk) {
    d.manifest.Some? ==>
      && d'.manifest.Some?
      && var m, n := d.manifest.value, d'.manifest.value;
         m.epoch <= n.epoch && (m.epoch == n.epoch && m.lifecycle != Changing ==> n == m)
  }

  /** The sequence never goes back, and a later sequence carries a generation never seen before. */
  ghost predicate JournalAdvances(s: World, t: World, k: Key) {
    k in s.disk.journals ==>
      && k in t.disk.journals
      && var i, j := s.disk.journals[k], t.disk.journals[k];
         && i.sequence <= j.sequence
         && (i.sequence == j.sequence ==> i.generation == j.generation)
         && (i.sequence < j.sequence ==> j.generation !in s.hist.issued)
  }

  function Rank(state: DeliveryState): nat {
    match state
    case Pending => 0
    case Prepared => 1
    case Emitted => 2
    case Invalid => 3
  }

  ghost predicate HeadAdvances(d: Disk, d': Disk, k: Key) {
    k in d.heads ==>
      && k in d'.heads
      && var g, h := d.heads[k], d'.heads[k];
         && g.sequence <= h.sequence
         && (g.sequence == h.sequence ==>
               && g.generation == h.generation && g.epoch == h.epoch && g.nonce == h.nonce
               && Rank(g.state) <= Rank(h.state)
               && (Published(g.state) && Published(h.state) ==> h == g.(state := h.state)))
  }

  ghost predicate CheckingBy(d: Disk, k: Key, attempt: Uuid) {
    k in d.guards && d.guards[k].state == Checking && d.guards[k].attempt == Some(attempt)
  }

  /** An attempt that is not being checked now, and is known, is never checked again. */
  ghost predicate AttemptsSpent(s: World, t: World, k: Key) {
    forall a :: a in s.hist.issued && !CheckingBy(s.disk, k, a) ==> !CheckingBy(t.disk, k, a)
  }

  ghost predicate KeyAdvances(s: World, t: World, k: Key) {
    JournalAdvances(s, t, k) && HeadAdvances(s.disk, t.disk, k) && AttemptsSpent(s, t, k)
  }

  ghost predicate AuditAdvances(d: Disk, d': Disk) {
    && RecordCount(d) <= RecordCount(d')
    && (forall i :: i in d.records ==> i in d'.records && d'.records[i] == d.records[i])
  }

  /** Reflexive and transitive: holds between any state of a run and every later one. */
  ghost predicate Advance(s: World, t: World) {
    && HistoryGrows(s.hist, t.hist)
    && ActivationAdvances(s, t)
    && ManifestAdvances(s.disk, t.disk)
    && (forall k :: KeyAdvances(s, t, k))
    && AuditAdvances(s.disk, t.disk)
  }

  lemma AdvanceSelf(s: World)
    ensures Advance(s, s)
  {
  }

  lemma AdvanceOn(s: World, t: World, u: World)
    requires Advance(s, t) && Advance(t, u)
    ensures Advance(s, u)
  {
    forall k ensures KeyAdvances(s, u, k) {
      assert KeyAdvances(s, t, k) && KeyAdvances(t, u, k);
    }
  }
}
