/**
 Dead ends: records whose journal is two ahead, and an audit record beyond its counter. No operation
 reads, repairs or changes them any more.
 */
module Stranding {
  import opened Records
  import opened Reading
  import opened Protocol
  import opened Registers

  /** The activation journal has left its manifest two epochs behind. */
  predicate StrandedAnchor(d: Disk) {
    d.manifest.Some? && d.activation.Some? && d.manifest.value.epoch + 1 < d.activation.value.epoch
  }

  /** The session journal has left its head two generations behind. */
  predicate StrandedSession(d: Disk, k: Key) {
    k in d.heads && k in d.journals && d.heads[k].sequence + 1 < d.journals[k].sequence
  }

  /** An append stopped between its record and its counter. */
  predicate OrphanRecord(d: Disk) {
    RecordCount(d) + 1 in d.records
  }

  predicate OrphanKept(d: Disk, d': Disk) {
    OrphanRecord(d) ==> d'.records == d.records && d'.counter == d.counter
  }

  ghost predicate SameSession(d: Disk, d': Disk, k: Key) {
    && k in d.heads && k in d'.heads && d'.heads[k] == d.heads[k]
    && k in d.journals && k in d'.journals && d'.journals[k] == d.journals[k]
  }

  /** What every operation promises: stranded records, and an audit store with an orphan, stay as they are. */
  ghost predicate StrandedKept(d: Disk, d': Disk) {
    && (StrandedAnchor(d) ==> d'.manifest == d.manifest && d'.activation == d.activation)
    && (forall k :: StrandedSession(d, k) ==> SameSession(d, d', k))
    && OrphanKept(d, d')
  }

  lemma StrandedIsUnreadable(d: Disk, k: Key)
    ensures StrandedAnchor(d) ==> CleanManifest(d).Failure? && EpochLocked(d).Failure?
    ensures StrandedSession(d, k) ==> ReadHead(d, k).Failure?
  {
  }

  lemma KeptOn(d: Disk, e: Disk, f: Disk)
    requires StrandedKept(d, e) && StrandedKept(e, f)
    ensures StrandedKept(d, f)
  {
    forall k | StrandedSession(d, k) ensures SameSession(d, f, k) {
      assert SameSession(d, e, k);
      assert StrandedSession(e, k);
    }
  }

  /** A move of the installation authority from anything but a stranded anchor. */
  lemma AnchorMoveKeeps(d: Disk, d': Disk)
    requires d' == d.(manifest := d'.manifest, activation := d'.activation) && (StrandedAnchor(d) ==> d' == d)
    ensures StrandedKept(d, d')
  {
  }

  /** A move of a head that could be read, or that is not stranded. */
  lemma HeadMoveKeeps(d: Disk, d': Disk, k: Key)
    requires OnlyHead(d, d', k) && !StrandedSession(d, k)
    ensures StrandedKept(d, d')
  {
  }

  /** A step that touches neither the installation authority nor any head, nor an audit store with an orphan. */
  lemma OtherRecordsKeep(d: Disk, d': Disk)
    requires OrphanKept(d, d')
    requires d'.manifest == d.manifest && d'.activation == d.activation && d'.heads == d.heads &&
               d'.journals == d.journals
    ensures StrandedKept(d, d')
  {
  }
}
