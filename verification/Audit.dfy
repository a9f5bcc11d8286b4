/** The bounded, append-only audit store of a gated installation. */
module Audit {
  import opened Wrappers
  import opened Records
  import opened Protocol
  import opened Invariants
  import opened State
  import opened Preservation
  import opened Stranding

  /** The summed length of the first `n` stored records, each present and within its own limit. */
  function MeasureStored(d: Disk, n: nat, limits: Limits): Res<nat> {
    if n == 0 then Success(0)
    else
      var measured :- MeasureStored(d, n - 1, limits);
      if n !in d.records || d.records[n].length > limits.recordBytes then Failure(StateCorrupt)
      else if measured + d.records[n].length > U32_MAX then Failure(StateCorrupt)
      else Success(measured + d.records[n].length)
  }

  /** The counter an append ends with, or the reason it is refused. */
  function AppendCheck(d: Disk, record: AuditRecord, limits: Limits): Res<Counter> {
    var records := RecordCount(d);
    var bytes := ByteCount(d);
    if records > limits.maxRecords || bytes > limits.maxBytes then Failure(StateCorrupt)
    else
      var measured :- MeasureStored(d, records, limits);
      if measured != bytes then Failure(StateCorrupt)
      else if records >= U32_MAX || records + 1 > limits.maxRecords ||
        records + 1 in d.records then Failure(StateCorrupt)
      else if record.length > limits.recordBytes || record.length > U32_MAX then Failure(StateCorrupt)
      else if bytes + record.length > U32_MAX || bytes + record.length > limits.maxBytes then Failure(StateCorrupt)
      else Success(Counter(records + 1, bytes + record.length))
  }

  /** What an append asks of the store: no orphan, nothing stored too long, and room for one more record. */
  ghost predicate HasRoom(d: Disk, record: AuditRecord, limits: Limits) {
    && !OrphanRecord(d)
    && (forall i :: 1 <= i <= RecordCount(d) && i in d.records ==> d.records[i].length <= limits.recordBytes)
    && record.length <= limits.recordBytes
    && RecordCount(d) + 1 <= limits.maxRecords && RecordCount(d) + 1 <= U32_MAX
    && ByteCount(d) + record.length <= limits.maxBytes && ByteCount(d) + record.length <= U32_MAX
  }

  /** Room depends on nothing but the audit store. */
  lemma SameRoom(d: Disk, d': Disk, record: AuditRecord, limits: Limits)
    requires d'.records == d.records && d'.counter == d.counter
    ensures HasRoom(d', record, limits) <==> HasRoom(d, record, limits)
  {
  }

  lemma {:induction false} StoredMeasures(d: Disk, n: nat, limits: Limits)
    requires AuditInv(d) && n <= RecordCount(d) && Measured(d.records, n) <= U32_MAX
    requires forall i :: 1 <= i <= n ==> d.records[i].length <= limits.recordBytes
    ensures MeasureStored(d, n, limits) == Success(Measured(d.records, n))
  {
    if n == 0 {
    } else {
      StoredMeasures(d, n - 1, limits);
    }
  }

  lemma {:induction false} StoredWithinLimit(d: Disk, i: nat, n: nat, limits: Limits)
    requires 1 <= i <= n && MeasureStored(d, n, limits).Success?
    ensures i in d.records && d.records[i].length <= limits.recordBytes
  {
    if i == n {
    } else {
      StoredWithinLimit(d, i, n - 1, limits);
    }
  }

  /** In a reachable store an append is accepted exactly when there is room, and counts one record of its length. */
  lemma RoomIsExact(d: Disk, record: AuditRecord, limits: Limits)
    requires AuditInv(d)
    ensures AppendCheck(d, record, limits).Success? <==> HasRoom(d, record, limits)
    ensures AppendCheck(d, record, limits).Success? ==>
              AppendCheck(d, record, limits).value == Counter(RecordCount(d) + 1, ByteCount(d) + record.length)
  {
    if HasRoom(d, record, limits) {
      StoredMeasures(d, RecordCount(d), limits);
    }
    if AppendCheck(d, record, limits).Success? {
      forall i | 1 <= i <= RecordCount(d) ensures d.records[i].length <= limits.recordBytes {
        StoredWithinLimit(d, i, RecordCount(d), limits);
      }
    }
  }

  /** The record first, then the counter; an interruption leaves the record beyond the counter. */
  ghost predicate Appended(s: World, t: World, record: AuditRecord, counter: Counter, r: Res<()>) {
    var stored := After(s, PutRecord(counter.records, record));
    var counted := After(stored, PutCounter(counter));
    match r
    case Success(_) => t == counted
    case Failure(IoFailed) => t == s || t == stored
    case Failure(DurabilityUncertain) => t == stored || t == counted
    case Failure(Stopped) => t == s || t == stored || t == counted
    case _ => false
  }

  lemma {:induction false} MeasureFails(d: Disk, i: nat, n: nat, limits: Limits)
    requires i <= n && MeasureStored(d, i, limits) == Failure(StateCorrupt)
    ensures MeasureStored(d, n, limits) == Failure(StateCorrupt)
  {
    if i == n {
    } else {
      MeasureFails(d, i, n - 1, limits);
    }
  }

  /** Re-read and measure the counted records, one after the other. */
  method MeasureRecords(d: Disk, n: nat, limits: Limits) returns (r: Res<nat>)
    ensures r == MeasureStored(d, n, limits)
  {
    var measured := 0;
    for index := 1 to n + 1
      invariant MeasureStored(d, index - 1, limits) == Success(measured)
    {
      if index !in d.records || d.records[index].length > limits.recordBytes
         || measured + d.records[index].length > U32_MAX {
        MeasureFails(d, index, n, limits);
        return Failure(StateCorrupt);
      }
      measured := measured + d.records[index].length;
    }
    return Success(measured);
  }

  lemma AppendReaches(s: World, record: AuditRecord, counter: Counter, limits: Limits)
    requires Inv(s) && counter == Counter(RecordCount(s.disk) + 1, ByteCount(s.disk) + record.length)
    requires counter.records !in s.disk.records
    requires Admits(limits, counter.records, counter.bytes) && record.length <= limits.recordBytes
    ensures var begun := Next(s, Auditing(limits));
            var stored := After(begun, PutRecord(counter.records, record));
            var counted := After(stored, PutCounter(counter));
            Reaches(s, begun) && Reaches(s, stored) && Reaches(s, counted) && Inv(begun) && Inv(stored) && Inv(counted)
  {
    var begun := Next(s, Auditing(limits));
    var stored := After(begun, PutRecord(counter.records, record));
    ReachesNext(s, Auditing(limits));
    ReachesNext(begun, Wrote(PutRecord(counter.records, record)));
    ReachesOn(s, begun, stored);
    ReachesNext(stored, Wrote(PutCounter(counter)));
    ReachesOn(s, stored, After(stored, PutCounter(counter)));
    ReachesKeeps(s, begun);
    ReachesKeeps(s, stored);
    ReachesKeeps(s, After(stored, PutCounter(counter)));
  }

  /** Store the record, then the counter that counts it. */
  method StoreAppend(dir: PrivateDirectory, record: AuditRecord, counter: Counter, ghost limits: Limits)
    returns (r: Res<()>)
    requires Inv(dir.Now()) && counter == Counter(RecordCount(dir.disk) + 1, ByteCount(dir.disk) + record.length)
    requires counter.records !in dir.disk.records
    requires Admits(limits, counter.records, counter.bytes) && record.length <= limits.recordBytes
    modifies dir
    ensures old(dir.faults) <= dir.faults && (r.Success? <==> dir.faults == old(dir.faults))
    ensures r.Success? ==>
              && dir.disk.records == old(dir.disk).records[counter.records := record]
              && dir.disk.counter == Some(counter)
    ensures Reaches(old(dir.Now()), dir.Now()) && Inv(dir.Now())
    ensures Appended(Next(old(dir.Now()), Auditing(limits)), dir.Now(), record, counter, r)
    ensures dir.disk == old(dir.disk).(records := dir.disk.records, counter := dir.disk.counter)
    ensures dir.hist == old(dir.hist).(limits := old(dir.hist).limits + {limits})
    ensures r.Success? ==> Audited(dir.disk, record.attempt)
  {
    AppendReaches(dir.Now(), record, counter, limits);
    dir.hist := Next(dir.Now(), Auditing(limits)).hist;
    var _ :- dir.Replace(PutRecord(counter.records, record));
    var _ :- dir.Replace(PutCounter(counter));
    assert counter.records in dir.disk.records;
    return Success(());
  }

  method AppendRecord(dir: PrivateDirectory, record: AuditRecord, limits: Limits) returns (r: Res<()>)
    requires Inv(dir.Now())
    modifies dir
    ensures old(dir.faults) <= dir.faults
    ensures dir.faults == old(dir.faults) ==> (r.Success? <==> HasRoom(old(dir.disk), record, limits))
    ensures r.Success? ==>
              var counter := Counter(RecordCount(old(dir.disk)) + 1, ByteCount(old(dir.disk)) + record.length);
              && dir.disk.records == old(dir.disk).records[counter.records := record]
              && dir.disk.counter == Some(counter)
    ensures StrandedKept(old(dir.disk), dir.disk)
    ensures Reaches(old(dir.Now()), dir.Now()) && Inv(dir.Now())
    ensures var check := AppendCheck(old(dir.disk), record, limits);
            if check.Failure? then r == Failure(check.error) && dir.Now() == old(dir.Now())
            else Appended(Next(old(dir.Now()), Auditing(limits)), dir.Now(), record, check.value, r)
    ensures dir.disk == old(dir.disk).(records := dir.disk.records, counter := dir.disk.counter)
    ensures dir.hist == old(dir.hist).(limits := dir.hist.limits)
    ensures r.Success? ==> Audited(dir.disk, record.attempt)
  {
    ghost var s := dir.Now();
    RoomIsExact(s.disk, record, limits);
    ReachesSelf(s);
    var counter := if dir.disk.counter.Some? then dir.disk.counter.value else Counter(0, 0);
    if counter.records > limits.maxRecords || counter.bytes > limits.maxBytes {
      return Failure(StateCorrupt);
    }
    var measured :- MeasureRecords(dir.disk, counter.records, limits);
    if measured != counter.bytes {
      return Failure(StateCorrupt);
    }
    if counter.records >= U32_MAX || counter.records + 1 > limits.maxRecords ||
      counter.records + 1 in dir.disk.records {
      return Failure(StateCorrupt);
    }
    if record.length > limits.recordBytes || record.length > U32_MAX {
      return Failure(StateCorrupt);
    }
    var updated := Counter(counter.records + 1, counter.bytes + record.length);
    if updated.bytes > U32_MAX || updated.bytes > limits.maxBytes {
      return Failure(StateCorrupt);
    }
    r := StoreAppend(dir, record, updated, limits);
  }

  /** In a reachable store the measuring loop always agrees with the counter, when it ends at all. */
  lemma {:induction false} MeasureAgrees(d: Disk, n: nat, limits: Limits)
    requires AuditInv(d) && n <= RecordCount(d) && MeasureStored(d, n, limits).Success?
    ensures MeasureStored(d, n, limits) == Success(Measured(d.records, n))
  {
    if n == 0 {
    } else {
      MeasureAgrees(d, n - 1, limits);
    }
  }

  /** An accepted append stays within every limit, counting what is stored. */
  lemma AppendWithinLimits(s: World, t: World, record: AuditRecord, limits: Limits, r: Res<()>)
    requires Inv(s) && AppendCheck(s.disk, record, limits).Success?
    requires Appended(Next(s, Auditing(limits)), t, record, AppendCheck(s.disk, record, limits).value, r)
    ensures RecordCount(t.disk) <= limits.maxRecords && ByteCount(t.disk) <= limits.maxBytes
    ensures AuditInv(t.disk) && ByteCount(t.disk) == Measured(t.disk.records, RecordCount(t.disk))
    ensures forall i :: i in t.disk.records ==> t.disk.records[i].length <= limits.recordBytes && i <= limits.maxRecords
  {
    var counter := AppendCheck(s.disk, record, limits).value;
    AppendReaches(s, record, counter, limits);
    forall i | i in t.disk.records
      ensures t.disk.records[i].length <= limits.recordBytes && i <= limits.maxRecords
    {
      if i in s.disk.records {
        StoredWithinLimit(s.disk, i, RecordCount(s.disk), limits);
      }
    }
  }

  /** A record beyond the counter refuses every append; in a reachable store there is at most one. */
  lemma OrphanRefusesAppends(s: World, i: nat, record: AuditRecord, limits: Limits)
    requires Inv(s) && i in s.disk.records && i > RecordCount(s.disk)
    ensures i == RecordCount(s.disk) + 1 && AppendCheck(s.disk, record, limits).Failure?
  {
  }
}
