/** Every protocol step keeps the invariant and advances the store. */
module Preservation {
  import opened Records
  import opened Protocol
  import opened Invariants

  /** Nothing stored under `l` differs, and the history and the audit store have only grown. */
  ghost predicate Untouched(s: World, t: World, l: Key) {
    && HistoryGrows(s.hist, t.hist) && AuditAdvances(s.disk, t.disk)
    && (l in s.disk.heads <==> l in t.disk.heads) && (l in s.disk.heads ==> t.disk.heads[l] == s.disk.heads[l])
    && (l in s.disk.journals <==> l in t.disk.journals) &&
         (l in s.disk.journals ==> t.disk.journals[l] == s.disk.journals[l])
    && (l in s.disk.guards <==> l in t.disk.guards) && (l in s.disk.guards ==> t.disk.guards[l] == s.disk.guards[l])
    && (l in s.disk.guardJournals <==> l in t.disk.guardJournals)
    && (l in s.disk.guardJournals ==> t.disk.guardJournals[l] == s.disk.guardJournals[l])
    && (forall n :: n in s.disk.payloads && n.key == l ==>
         n in t.disk.payloads && t.disk.payloads[n] == s.disk.payloads[n])
  }

  /** Journals that only advance never fall behind a stored lineage. */
  lemma LineagesKept(s: World, t: World)
    requires (forall l :: LineageInv(s.disk, l)) && forall l :: JournalAdvances(s, t, l)
    requires forall l :: l in t.disk.heads && t.disk.heads[l].lineage.Some? ==>
               || LineageIsCurrent(s.disk, t.disk.heads[l])
               || (l in s.disk.heads && t.disk.heads[l].lineage == s.disk.heads[l].lineage)
    ensures forall l :: LineageInv(t.disk, l)
  {
    forall l | l in t.disk.heads && t.disk.heads[l].lineage.Some? ensures LineageInv(t.disk, l) {
      assert LineageInv(s.disk, l);
      assert JournalAdvances(s, t, t.disk.heads[l].lineage.value.parent);
    }
  }

  lemma JournalStepHere(s: World, k: Key, j: SessionJournal)
    requires KeyInv(s, k) && HandedInv(s) && MayJournal(s, k, j)
    ensures KeyInv(After(s, PutJournal(k, j)), k) && KeyAdvances(s, After(s, PutJournal(k, j)), k)
  {
  }

  lemma HeadStepHere(s: World, k: Key, h: Head)
    requires KeyInv(s, k) && HandedInv(s) && MayHead(s, k, h)
    ensures KeyInv(After(s, PutHead(k, h)), k) && KeyAdvances(s, After(s, PutHead(k, h)), k)
  {
  }

  lemma GuardJournalStepHere(s: World, k: Key, j: GuardJournal)
    requires KeyInv(s, k) && HandedInv(s) && MayGuardJournal(s, k, j)
    ensures KeyInv(After(s, PutGuardJournal(k, j)), k) && KeyAdvances(s, After(s, PutGuardJournal(k, j)), k)
  {
  }

  lemma GuardStepHere(s: World, k: Key, g: Guard)
    requires KeyInv(s, k) && HandedInv(s) && MayGuard(s, k, g)
    ensures KeyInv(After(s, PutGuard(k, g)), k) && KeyAdvances(s, After(s, PutGuard(k, g)), k)
  {
  }

  lemma {:induction false} MeasuredSame(r: map<nat, AuditRecord>, q: map<nat, AuditRecord>, n: nat)
    requires forall i :: 1 <= i <= n ==> i in r && i in q && r[i] == q[i]
    ensures Measured(r, n) == Measured(q, n)
  {
    if n == 0 {
    } else {
      MeasuredSame(r, q, n - 1);
    }
  }

  lemma AuditedStays(d: Disk, d': Disk, attempt: Uuid)
    requires Audited(d, attempt) && AuditAdvances(d, d')
    ensures Audited(d', attempt)
  {
    var i :| i in d.records && 1 <= i <= RecordCount(d) && d.records[i].attempt == attempt;
    assert i in d'.records;
  }

  lemma UntouchedKeeps(s: World, t: World, l: Key)
    requires KeyInv(s, l) && Untouched(s, t, l)
    ensures KeyInv(t, l) && KeyAdvances(s, t, l)
  {
    if l in s.disk.guards && s.disk.guards[l].state == Completed {
      AuditedStays(s.disk, t.disk, s.disk.guards[l].attempt.value);
    }
  }

  /** A step that leaves every session record alone keeps what is said of every key. */
  lemma AllUntouched(s: World, t: World)
    requires Inv(s) && HistoryGrows(s.hist, t.hist) && AuditAdvances(s.disk, t.disk)
    requires t.disk.heads == s.disk.heads && t.disk.journals == s.disk.journals && t.disk.payloads == s.disk.payloads
    requires t.disk.guards == s.disk.guards && t.disk.guardJournals == s.disk.guardJournals
    ensures forall l :: KeyInv(t, l) && KeyAdvances(s, t, l)
    ensures forall l :: LineageInv(t.disk, l)
  {
    forall l ensures KeyInv(t, l) && KeyAdvances(s, t, l) {
      assert KeyInv(s, l);
      UntouchedKeeps(s, t, l);
    }
    LineagesKept(s, t);
  }

  lemma ActivationStep(s: World, a: ActivationJournal)
    requires Inv(s) && MayActivation(s, a)
    ensures Inv(After(s, PutActivation(a))) && Advance(s, After(s, PutActivation(a)))
  {
    var t := After(s, PutActivation(a));
    AllUntouched(s, t);
    assert forall e :: e in s.hist.configs ==> ConfigInv(s, e) && ConfigInv(t, e);
  }

  lemma ManifestStep(s: World, m: Manifest)
    requires Inv(s) && MayManifest(s, m)
    ensures Inv(After(s, PutManifest(m))) && Advance(s, After(s, PutManifest(m)))
  {
    var t := After(s, PutManifest(m));
    assert m.config.Some? ==> m.epoch !in s.hist.configs by {
      if m.epoch in s.hist.configs { assert ConfigInv(s, m.epoch); }
    }
    AllUntouched(s, t);
    forall e | e in t.hist.configs ensures ConfigInv(t, e) {
      if e in s.hist.configs { assert ConfigInv(s, e); }
    }
  }

  lemma JournalStep(s: World, k: Key, j: SessionJournal)
    requires Inv(s) && MayJournal(s, k, j)
    ensures Inv(After(s, PutJournal(k, j))) && Advance(s, After(s, PutJournal(k, j)))
  {
    var t := After(s, PutJournal(k, j));
    forall l ensures KeyInv(t, l) && KeyAdvances(s, t, l) {
      assert KeyInv(s, l);
      if l == k {
        JournalStepHere(s, k, j);
      } else {
        UntouchedKeeps(s, t, l);
      }
    }
    assert forall l :: KeyAdvances(s, t, l);
    LineagesKept(s, t);
    assert forall e :: e in s.hist.configs ==> ConfigInv(s, e) && ConfigInv(t, e);
  }

  lemma HeadStep(s: World, k: Key, h: Head)
    requires Inv(s) && MayHead(s, k, h)
    ensures Inv(After(s, PutHead(k, h))) && Advance(s, After(s, PutHead(k, h)))
  {
    var t := After(s, PutHead(k, h));
    forall l ensures KeyInv(t, l) && KeyAdvances(s, t, l) {
      assert KeyInv(s, l);
      if l == k {
        HeadStepHere(s, k, h);
      } else {
        UntouchedKeeps(s, t, l);
      }
    }
    assert forall l :: KeyAdvances(s, t, l);
    LineagesKept(s, t);
    assert forall e :: e in s.hist.configs ==> ConfigInv(s, e) && ConfigInv(t, e);
  }

  lemma GuardJournalStep(s: World, k: Key, j: GuardJournal)
    requires Inv(s) && MayGuardJournal(s, k, j)
    ensures Inv(After(s, PutGuardJournal(k, j))) && Advance(s, After(s, PutGuardJournal(k, j)))
  {
    var t := After(s, PutGuardJournal(k, j));
    forall l ensures KeyInv(t, l) && KeyAdvances(s, t, l) {
      assert KeyInv(s, l);
      if l == k {
        GuardJournalStepHere(s, k, j);
      } else {
        UntouchedKeeps(s, t, l);
      }
    }
    assert forall l :: KeyAdvances(s, t, l);
    LineagesKept(s, t);
    assert forall e :: e in s.hist.configs ==> ConfigInv(s, e) && ConfigInv(t, e);
  }

  lemma GuardStep(s: World, k: Key, g: Guard)
    requires Inv(s) && MayGuard(s, k, g)
    ensures Inv(After(s, PutGuard(k, g))) && Advance(s, After(s, PutGuard(k, g)))
  {
    var t := After(s, PutGuard(k, g));
    forall l ensures KeyInv(t, l) && KeyAdvances(s, t, l) {
      assert KeyInv(s, l);
      if l == k {
        GuardStepHere(s, k, g);
      } else {
        UntouchedKeeps(s, t, l);
      }
    }
    assert forall l :: KeyAdvances(s, t, l);
    LineagesKept(s, t);
    assert forall e :: e in s.hist.configs ==> ConfigInv(s, e) && ConfigInv(t, e);
  }

  lemma PayloadStep(s: World, n: PayloadName, p: Payload)
    requires Inv(s) && MayWrite(s, PutPayload(n, p))
    ensures Inv(After(s, PutPayload(n, p))) && Advance(s, After(s, PutPayload(n, p)))
  {
    var t := After(s, PutPayload(n, p));
    forall l ensures KeyInv(t, l) && KeyAdvances(s, t, l) {
      assert KeyInv(s, l);
      if l != n.key {
        UntouchedKeeps(s, t, l);
      }
    }
    assert forall l :: KeyAdvances(s, t, l);
    LineagesKept(s, t);
    assert forall e :: e in s.hist.configs ==> ConfigInv(s, e) && ConfigInv(t, e);
  }

  lemma AuditStep(s: World, w: Write)
    requires Inv(s) && MayWrite(s, w) && (w.PutRecord? || w.PutCounter?)
    ensures Inv(After(s, w)) && Advance(s, After(s, w))
  {
    var t := After(s, w);
    if w.PutRecord? {
      MeasuredSame(s.disk.records, t.disk.records, RecordCount(s.disk));
    }
    AllUntouched(s, t);
    assert forall e :: e in s.hist.configs ==> ConfigInv(s, e) && ConfigInv(t, e);
  }

  /** A step that leaves every record but the recorded working directories alone. */
  lemma HistoryOnly(s: World, t: World)
    requires Inv(s) && t.disk == s.disk.(places := t.disk.places)
    requires HistoryGrows(s.hist, t.hist) && t.hist.issued == s.hist.issued && t.hist.configs == s.hist.configs
    requires HandedInv(t)
    ensures Inv(t) && Advance(s, t)
  {
    AllUntouched(s, t);
    assert forall e :: e in s.hist.configs ==> ConfigInv(s, e) && ConfigInv(t, e);
  }

  lemma NextKeeps(s: World, e: Event)
    requires Inv(s) && May(s, e)
    ensures Inv(Next(s, e)) && Advance(s, Next(s, e))
  {
    var t := Next(s, e);
    match e
    case Wrote(w) =>
      match w {
        case PutActivation(a) => ActivationStep(s, a);
        case PutManifest(m) => ManifestStep(s, m);
        case PutJournal(k, j) => JournalStep(s, k, j);
        case PutHead(k, h) => HeadStep(s, k, h);
        case PutGuardJournal(k, j) => GuardJournalStep(s, k, j);
        case PutGuard(k, g) => GuardStep(s, k, g);
        case PutPayload(n, p) => PayloadStep(s, n, p);
        case PutRecord(_, _) => AuditStep(s, w);
        case PutCounter(_) => AuditStep(s, w);
        case PutPlace(k, p) => HistoryOnly(s, t);
      }
    case Flushed(p) => HistoryOnly(s, t);
    case Handed(p) => HistoryOnly(s, t);
    case Auditing(l) => HistoryOnly(s, t);
  }

  // ---- runs ----------------------------------------------------------------------------

  lemma FreshInv()
    ensures Inv(FRESH_WORLD)
  {
  }

  lemma MicroKeeps(s: World, t: World)
    requires Inv(s) && Micro(s, t)
    ensures Inv(t) && Advance(s, t)
  {
    var e :| May(s, e) && t == Next(s, e);
    NextKeeps(s, e);
  }

  lemma StepOn(s: World, t: World, u: World)
    requires Advance(s, t) && Inv(t) && Micro(t, u)
    ensures Inv(u) && Advance(s, u)
  {
    MicroKeeps(t, u);
    AdvanceOn(s, t, u);
  }

  lemma {:induction false} PathKeeps(p: seq<World>, i: nat, j: nat)
    requires Path(p) && i <= j < |p| && Inv(p[i])
    ensures Inv(p[j]) && Advance(p[i], p[j])
  {
    if i == j {
      AdvanceSelf(p[i]);
    } else {
      PathKeeps(p, i, j - 1);
      assert StepAt(p, j);
      StepOn(p[i], p[j - 1], p[j]);
    }
  }

  /** Along every run, interrupted anywhere, the invariant holds and the store only advances. */
  lemma RunKeeps(run: seq<World>, i: nat, j: nat)
    requires Run(run) && i <= j < |run|
    ensures Inv(run[i]) && Inv(run[j]) && Advance(run[i], run[j])
  {
    FreshInv();
    PathKeeps(run, 0, i);
    PathKeeps(run, i, j);
  }

  lemma ReachesKeeps(s: World, t: World)
    requires Inv(s) && Reaches(s, t)
    ensures Inv(t) && Advance(s, t)
  {
    var p :| Path(p) && p[0] == s && p[|p| - 1] == t;
    PathKeeps(p, 0, |p| - 1);
  }
}
