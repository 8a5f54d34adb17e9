/**
 The durable evidence ledger object over a file that other instances may also write. Each method
 is proved to move the ledger exactly as the state machine of LedgerMachine does.
 */
module EvidenceLedger {
  import opened Options
  import opened Bytes
  import opened EvidenceCodec
  import opened EvidenceDigest
  import opened EvidenceStore
  import opened LedgerMachine

  class DiskFile {
    var present: bool
    var bytes: seq<byte>

    constructor (bytes: seq<byte>)
      ensures present && this.bytes == bytes
    {
      present, this.bytes := true, bytes;
    }
  }

  class EvidenceLedger {
    const disk: DiskFile
    var index: set<Digest>
    var indexedSize: nat
    var goodEnd: nat
    var torn: bool
    var indexValid: bool

    function State(): Ledger
      reads this, disk
    {
      Ledger(disk.present, disk.bytes, index, indexedSize, goodEnd, torn, indexValid)
    }

    constructor (disk: DiskFile)
      ensures this.disk == disk
      ensures State() == Opened(disk.present, disk.bytes)
    {
      this.disk := disk;
      index, indexedSize, goodEnd, torn, indexValid := {}, 0, 0, false, false;
    }

    /** Opening refuses a file that exists and is empty. */
    static method Open(disk: DiskFile) returns (r: Option<EvidenceLedger>)
      ensures r.Some? <==> CanOpen(disk.present, disk.bytes)
      ensures r.Some? ==> fresh(r.value) && r.value.disk == disk
                          && r.value.State() == Opened(disk.present, disk.bytes)
      ensures r.Some? && (!disk.present ==> disk.bytes == []) ==> Sound(r.value.State())
    {
      if disk.present && disk.bytes == [] {
        return None;
      }
      var ledger := new EvidenceLedger(disk);
      return Some(ledger);
    }

    /** The digests of the entries that a scan visits, inserted in turn into a cleared index. */
    static method IndexVisited(entries: seq<Evidence>) returns (index: set<Digest>)
      ensures index == Digests(entries)
    {
      hide DigestOf, Digests, Insert, Accepts;
      index := {};
      DigestsOfNone();
      for i := 0 to |entries|
        invariant index == Digests(entries[..i])
      {
        VisitOne(entries, i);
        index := index + {DigestOf(entries[i])};
      }
      assert entries[..|entries|] == entries;
    }

    method RefreshIndex() returns (ok: bool)
      modifies this
      ensures State() == Refresh(old(State()))
      ensures ok == !RefreshThrows(old(State()))
    {
      hide Digests;
      var size := |disk.bytes|;
      if indexValid && size == indexedSize {
        return true;
      }
      var r := Scan(disk.bytes);
      index := IndexVisited(r.entries);
      goodEnd, torn := r.goodEnd, r.status.TornTail?;
      if r.status.Broken? {
        return false;
      }
      indexedSize := size;
      indexValid := true;
      return true;
    }

    method Append(e: Evidence) returns (outcome: Outcome)
      modifies this, disk
      ensures State() == LedgerMachine.Append(old(State()), e)
      ensures outcome == AppendOutcome(old(State()), e)
      ensures Sound(old(State())) && Scannable(old(State())) && Readable(e) ==>
                && Sound(State())
                && (outcome == Added <==> Accepts(Entries(old(State())), e))
                && Entries(State()) == Insert(Entries(old(State())), e)
    {
      hide Encode, ScanBytes, Acceptable, DigestOf, Sound, Scannable, Readable, Accepts;
      ghost var before := State();
      if Sound(before) && Scannable(before) && Readable(e) {
        AppendRefines(before, e);
      }
      if !Acceptable(e) {
        return Refused;
      }
      var ok := RefreshIndex();
      if !ok {
        return Threw;
      }
      if DigestOf(e) in index {
        return Refused;
      }
      if torn {
        disk.bytes := Resize(disk.bytes, goodEnd);
        indexedSize := goodEnd;
        torn := false;
      }
      disk.present, disk.bytes := true, disk.bytes + Encode(e);
      index := index + {DigestOf(e)};
      indexedSize := |disk.bytes|;
      return Added;
    }

    /** The readable entries; none when the file is corrupt, for then the scan throws. */
    method ReadEntries() returns (r: Option<seq<Evidence>>)
      ensures r == if Scannable(State()) then Some(Entries(State())) else None
    {
      var scanned := Scan(disk.bytes);
      r := if scanned.status.Broken? then None else Some(scanned.entries);
    }
  }
}
