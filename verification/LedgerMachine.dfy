/**
 The durable evidence ledger as a state machine over its file and its in-memory index. Steps are
 appends, appends cut off after any number of bytes, whole-record appends by another writer and
 reopening after a crash. The main theorem refines every run to the plain list of records.
 */
module LedgerMachine {
  import opened Bytes
  import opened EvidenceCodec
  import opened EvidenceDigest
  import opened EvidenceStore
  import CrashTail

  /** The file and one instance's memory of it. */
  datatype Ledger = Ledger(
    present: bool, file: seq<byte>,
    index: set<Digest>, indexedSize: nat, goodEnd: nat, torn: bool, indexValid: bool)

  datatype Outcome = Added | Refused | Threw

  function Opened(present: bool, file: seq<byte>): Ledger {
    Ledger(present, file, {}, 0, 0, false, false)
  }

  /** The constructor refuses a file that exists and holds nothing. */
  predicate CanOpen(present: bool, file: seq<byte>) {
    !(present && file == [])
  }

  predicate Trusted(l: Ledger) {
    l.indexValid && |l.file| == l.indexedSize
  }

  /** Bring the index up to date; a corrupt file leaves what was visited before it in the index. */
  function Refresh(l: Ledger): Ledger {
    if Trusted(l) then l else
      var r := ScanBytes(l.file);
      var scanned := l.(index := Digests(r.entries), goodEnd := r.goodEnd, torn := r.status.TornTail?);
      if r.status.Broken? then scanned else scanned.(indexedSize := |l.file|, indexValid := true)
  }

  function RefreshThrows(l: Ledger): bool {
    !Trusted(l) && ScanBytes(l.file).status.Broken?
  }

  function Resize(file: seq<byte>, size: nat): (r: seq<byte>)
    ensures |r| == size
  {
    if size <= |file| then file[..size] else file + seq(size - |file|, _ => 0)
  }

  /** Drop a partial final record before writing after it. */
  function Repair(l: Ledger): Ledger {
    if l.torn then l.(file := Resize(l.file, l.goodEnd), indexedSize := l.goodEnd, torn := false) else l
  }

  function Write(l: Ledger, bytes: seq<byte>): Ledger {
    l.(present := true, file := l.file + bytes)
  }

  /** Whether an append gets as far as writing. */
  predicate Writes(l: Ledger, e: Evidence) {
    Acceptable(e) && !RefreshThrows(l) && DigestOf(e) !in Refresh(l).index
  }

  function Append(l: Ledger, e: Evidence): Ledger {
    if !Acceptable(e) then l
    else if !Writes(l, e) then Refresh(l)
    else
      var w := Write(Repair(Refresh(l)), Encode(e));
      w.(index := w.index + {DigestOf(e)}, indexedSize := |w.file|)
  }

  function AppendOutcome(l: Ledger, e: Evidence): Outcome {
    if !Acceptable(e) then Refused
    else if RefreshThrows(l) then Threw
    else if Writes(l, e) then Added
    else Refused
  }

  /** An append whose write or sync failed after `n` bytes reached the file. */
  function CutOff(l: Ledger, e: Evidence, n: nat): Ledger
    requires n <= |Encode(e)|
  {
    if !Acceptable(e) then l
    else if !Writes(l, e) then Refresh(l)
    else Write(Repair(Refresh(l)), Encode(e)[..n])
  }

  /** Another writer adds whole records. */
  function Foreign(l: Ledger, es: seq<Evidence>): Ledger {
    Write(l, EncodeAll(es))
  }

  function Entries(l: Ledger): seq<Evidence> {
    ScanBytes(l.file).entries
  }

  predicate Scannable(l: Ledger) {
    !ScanBytes(l.file).status.Broken?
  }

  /** The index is what a full rescan would build. */
  predicate IndexAgrees(l: Ledger) {
    var r := ScanBytes(l.file);
    && !r.status.Broken?
    && l.index == Digests(r.entries)
    && l.torn == r.status.TornTail?
    && (l.torn ==> l.goodEnd == r.goodEnd)
  }

  /** A trusted index agrees with the file. */
  predicate TrustHolds(l: Ledger) {
    Trusted(l) ==> IndexAgrees(l)
  }

  /** The class invariant. */
  predicate Sound(l: Ledger) {
    && TrustHolds(l)
    && (l.indexValid ==> l.indexedSize <= |l.file|)
    && (!l.present ==> l.file == [])
  }

  // ---------------------------------------------------------------- single steps

  lemma RefreshAgrees(l: Ledger)
    requires Sound(l) && Scannable(l)
    ensures var r := Refresh(l);
            && Sound(r) && Trusted(r) && IndexAgrees(r)
            && r.file == l.file && r.present == l.present
            && !RefreshThrows(l)
  {
  }

  /**
   A refresh that throws has emptied the index and put the records before the corruption into it; the
   size it trusts is as it was, so that the next call scans again.
   */
  lemma ThrowingRefreshLeaves(l: Ledger)
    requires RefreshThrows(l)
    ensures var r, scan := Refresh(l), ScanBytes(l.file);
            && scan.status == Broken
            && r.index == Digests(scan.entries) && r.goodEnd == scan.goodEnd && !r.torn
            && r.indexedSize == l.indexedSize && r.indexValid == l.indexValid
            && r.file == l.file && r.present == l.present && !Trusted(r)
  {
  }

  /** Repair leaves exactly the complete records, and the index still describes them. */
  lemma RepairKeepsRecords(l: Ledger)
    requires Trusted(l) && IndexAgrees(l)
    ensures var r := Repair(l);
            && r.file == l.file[..ScanBytes(l.file).goodEnd]
            && r.file == EncodeAll(Entries(l))
            && ScanBytes(r.file) == ScanResult(Entries(l), |r.file|, Whole)
            && AllReadable(Entries(l))
            && Trusted(r) && IndexAgrees(r)
  {
    hide Digests;
    ScanSound(l.file);
    ScanRoundTrip(Entries(l));
    assert l.file[..|l.file|] == l.file;
  }

  /**
   Repair removes exactly the bytes past the good end. They are what a crash of the writer left, and
   the file is one that such a crash left, exactly when those bytes are clean; otherwise repair drops
   wrong bytes.
   */
  lemma RepairDropsRemainsIff(l: Ledger, w: CrashTail.Writer)
    requires Trusted(l) && IndexAgrees(l) && l.torn && CrashTail.ValidWriter(w)
    ensures var dropped := l.file[ScanBytes(l.file).goodEnd..];
            && l.file == Repair(l).file + dropped
            && (CrashTail.Remains(dropped, w) <==> CrashTail.CleanTail(dropped, w))
            && (CrashTail.CrashedFile(l.file, w) <==> CrashTail.CleanTail(dropped, w))
  {
    hide Digests, ScanBytes, CrashTail.Remains, CrashTail.CrashedFile, CrashTail.CleanTail, CrashTail.ValidWriter;
    CrashTail.TornFileIsCrashedIff(l.file, w);
    CrashTail.RemainsIff(l.file[ScanBytes(l.file).goodEnd..], w);
  }

  /** What the file holds once `n` bytes of a record are written after whole records. */
  lemma ScanAfterPartialWrite(es: seq<Evidence>, e: Evidence, n: nat)
    requires AllReadable(es) && Readable(e) && n <= |Encode(e)|
    ensures ScanBytes(EncodeAll(es) + Encode(e)[..n]) ==
            if n == |Encode(e)| then ScanResult(es + [e], |EncodeAll(es)| + n, Whole)
            else ScanResult(es, |EncodeAll(es)|, if n > 0 then TornTail else Whole)
  {
    hide Encode, ScanBytes;
    ScanAfterRecords(es, Encode(e)[..n]);
    if n == |Encode(e)| {
      assert Encode(e)[..n] == Encode(e) + [];
      ScanStep(e, []);
      ScanOfNothing();
      assert [e] + [] == [e];
    } else {
      ScanTornStep(e, n);
      assert es + [] == es;
    }
  }

  /**
   One append. It succeeds exactly when the record is acceptable and its digest is new, and then
   the file is the old complete records followed by the new one: a partial tail is gone and no
   complete record is lost. Otherwise the file is untouched. The class invariant holds again.
   */
  lemma AppendRefines(l: Ledger, e: Evidence)
    requires Sound(l) && Scannable(l) && Readable(e)
    ensures var l' := Append(l, e);
            && AppendOutcome(l, e) == (if Accepts(Entries(l), e) then Added else Refused)
            && Sound(l') && Scannable(l')
            && Entries(l') == Insert(Entries(l), e)
            && l'.file == if Accepts(Entries(l), e) then EncodeAll(Insert(Entries(l), e)) else l.file
  {
    hide Encode, ScanBytes, Acceptable, DigestOf;
    RefreshAgrees(l);
    if Writes(l, e) {
      var r := Refresh(l);
      RepairKeepsRecords(r);
      assert Encode(e)[..|Encode(e)|] == Encode(e);
      ScanAfterPartialWrite(Entries(l), e, |Encode(e)|);
      DigestsOfInsert(Entries(l), e);
      EncodeAllJoin(Entries(l), [e]);
      assert EncodeAll([e]) == Encode(e) + [] == Encode(e);
    }
  }

  /**
   One append cut off after `n` bytes. The complete records survive whatever `n` is, the new
   record is readable exactly when all its bytes arrived, and the class invariant holds.
   */
  lemma CutOffRefines(l: Ledger, e: Evidence, n: nat)
    requires Sound(l) && Scannable(l) && Readable(e) && n <= |Encode(e)|
    ensures var l' := CutOff(l, e, n);
            && Sound(l') && Scannable(l')
            && Entries(l') == if n == |Encode(e)| then Insert(Entries(l), e) else Entries(l)
  {
    hide Encode, ScanBytes, Acceptable, DigestOf;
    RefreshAgrees(l);
    if Writes(l, e) {
      var r := Refresh(l);
      RepairKeepsRecords(r);
      ScanAfterPartialWrite(Entries(l), e, n);
      assert n == 0 ==> EncodeAll(Entries(l)) + Encode(e)[..n] == EncodeAll(Entries(l));
    }
  }

  /** Whole records added to an untorn file by another writer are seen, and never trusted unseen. */
  lemma ForeignRefines(l: Ledger, es: seq<Evidence>)
    requires Sound(l) && ScanBytes(l.file).status.Whole? && AllReadable(es)
    ensures var l' := Foreign(l, es);
            && Sound(l') && Scannable(l') && Entries(l') == Entries(l) + es
  {
    hide ScanBytes, Encode;
    var old_ := Entries(l);
    ScanSound(l.file);
    assert l.file[..|l.file|] == l.file;
    EncodeAllJoin(old_, es);
    ScanRoundTrip(old_ + es);
    if es == [] {
      assert l.file + [] == l.file && old_ + es == old_;
    } else {
      EncodeAllJoin([], es);
    }
  }

  // ---------------------------------------------------------------- runs

  datatype Step =
    | AppendStep(e: Evidence)
    | CutOffStep(e: Evidence, n: nat)
    | ForeignStep(es: seq<Evidence>)
    | ReopenStep

  /** What may happen next: readable records, another writer only on an untorn file, reopening unless refused. */
  predicate Permitted(l: Ledger, s: Step) {
    match s
    case AppendStep(e) => Readable(e)
    case CutOffStep(e, n) => Readable(e) && n <= |Encode(e)|
    case ForeignStep(es) => AllReadable(es) && ScanBytes(l.file).status.Whole?
    case ReopenStep => CanOpen(l.present, l.file)
  }

  function Do(l: Ledger, s: Step): Ledger
    requires Permitted(l, s)
  {
    match s
    case AppendStep(e) => Append(l, e)
    case CutOffStep(e, n) => CutOff(l, e, n)
    case ForeignStep(es) => Foreign(l, es)
    case ReopenStep => Opened(l.present, l.file)
  }

  /** The same step on a plain list of records. */
  function Ideal(es: seq<Evidence>, s: Step): seq<Evidence> {
    match s
    case AppendStep(e) => Insert(es, e)
    case CutOffStep(e, n) => if n == |Encode(e)| then Insert(es, e) else es
    case ForeignStep(more) => es + more
    case ReopenStep => es
  }

  predicate AllPermitted(l: Ledger, steps: seq<Step>)
    decreases |steps|
  {
    steps == [] || (Permitted(l, steps[0]) && AllPermitted(Do(l, steps[0]), steps[1..]))
  }

  function Run(l: Ledger, steps: seq<Step>): Ledger
    requires AllPermitted(l, steps)
    decreases |steps|
  {
    if steps == [] then l else Run(Do(l, steps[0]), steps[1..])
  }

  function IdealRun(es: seq<Evidence>, steps: seq<Step>): seq<Evidence>
    decreases |steps|
  {
    if steps == [] then es else IdealRun(Ideal(es, steps[0]), steps[1..])
  }

  lemma StepRefines(l: Ledger, s: Step)
    requires Sound(l) && Scannable(l) && Permitted(l, s)
    ensures Sound(Do(l, s)) && Scannable(Do(l, s)) && Entries(Do(l, s)) == Ideal(Entries(l), s)
  {
    hide Sound, Scannable, ScanBytes, Encode, Append, CutOff, Foreign, Insert, Readable;
    match s
    case AppendStep(e) => AppendRefines(l, e);
    case CutOffStep(e, n) => CutOffRefines(l, e, n);
    case ForeignStep(es) => ForeignRefines(l, es);
    case ReopenStep => ReopenRefines(l);
  }

  lemma ReopenRefines(l: Ledger)
    requires Sound(l) && Scannable(l)
    ensures var l' := Opened(l.present, l.file); Sound(l') && Scannable(l') && Entries(l') == Entries(l)
  {
  }

  /**
   Every run, whatever the interleaving of appends, cut-off appends, other writers and reopening:
   the readable entries are those of the plain list, none that was ever readable is lost, and the
   class invariant holds at the end.
   */
  lemma {:induction false} RunRefines(l: Ledger, steps: seq<Step>)
    requires Sound(l) && Scannable(l) && AllPermitted(l, steps)
    ensures var l' := Run(l, steps);
            && Sound(l') && Scannable(l')
            && Entries(l') == IdealRun(Entries(l), steps)
            && Entries(l) <= Entries(l')
    decreases |steps|
  {
    hide Sound, Scannable, Permitted, Do, Entries, Encode, Accepts;
    if steps != [] {
      StepRefines(l, steps[0]);
      RunRefines(Do(l, steps[0]), steps[1..]);
    }
  }

  /** Without another writer, the entries of every run stay acceptable and pairwise distinct. */
  lemma {:induction false} OwnRunsStayDistinct(es: seq<Evidence>, steps: seq<Step>)
    requires Distinct(es) && AllAcceptable(es)
    requires forall s :: s in steps ==> !s.ForeignStep?
    ensures Distinct(IdealRun(es, steps)) && AllAcceptable(IdealRun(es, steps))
    decreases |steps|
  {
    hide Distinct, AllAcceptable, Insert, Encode;
    if steps != [] {
      assert steps[0] in steps;
      match steps[0] {
        case AppendStep(e) => InsertKeeps(es, e);
        case CutOffStep(e, n) => InsertKeeps(es, e);
        case ReopenStep =>
      }
      OwnRunsStayDistinct(Ideal(es, steps[0]), steps[1..]);
    }
  }

  function Appends(es: seq<Evidence>): seq<Step> {
    if es == [] then [] else [AppendStep(es[0])] + Appends(es[1..])
  }

  /** Feeding records to a new ledger leaves the entries that feeding them to a store leaves. */
  lemma {:induction false} LedgerEqualsStore(l: Ledger, es: seq<Evidence>)
    requires Sound(l) && Scannable(l) && AllReadable(es)
    ensures AllPermitted(l, Appends(es))
    ensures Entries(Run(l, Appends(es))) == InsertAll(Entries(l), es)
    decreases |es|
  {
    hide Sound, Scannable, Readable, Entries, Append, Insert;
    if es != [] {
      var s := AppendStep(es[0]);
      assert Permitted(l, s) && Do(l, s) == Append(l, es[0]);
      StepRefines(l, s);
      assert Appends(es)[0] == s && Appends(es)[1..] == Appends(es[1..]);
      LedgerEqualsStore(Append(l, es[0]), es[1..]);
    }
  }

  // ---------------------------------------------------------------- where the promise stops

  /**
   A crash before the first byte of the first record: the file is there, empty, and cannot be opened.
   */
  lemma EmptyFileAfterCrash()
    ensures var l := CutOff(Opened(false, []), Note([1]), 0);
            l.present && l.file == [] && !CanOpen(l.present, l.file)
  {
    hide Note, ScanBytes, Encode, DigestOf, Acceptable, CutOff, Sound, Scannable, Entries;
    EmptyLedgerIsSound();
    NoteFacts([1]);
    DigestsOfNone();
    ReopensAfterCrashIff(Opened(false, []), Note([1]), 0);
  }

  /** Adding an acceptable new record leaves the file readable exactly when its fields are within the limit. */
  lemma AddedStaysReadableIff(l: Ledger, e: Evidence)
    requires Sound(l) && Scannable(l) && Accepts(Entries(l), e)
    ensures AppendOutcome(l, e) == Added
    ensures Scannable(Append(l, e)) <==> Readable(e)
  {
    hide Encode, ScanBytes, Acceptable, DigestOf, Readable;
    RefreshAgrees(l);
    RepairKeepsRecords(Refresh(l));
    ReadableAfterAppendIff(Entries(l), e);
  }

  function Oversize(): Evidence {
    Evidence(Sync, Verified, [1], [1], [1], seq(FIELD_LIMIT + 1, _ => 0), 1, 1, 0)
  }

  /** A new ledger adds a record with a payload one byte over the limit, and can then not be read. */
  lemma OversizeIsAddedAndBreaks()
    ensures var l := Opened(false, []);
            AppendOutcome(l, Oversize()) == Added && !Scannable(Append(l, Oversize()))
  {
    OversizeFacts();
    EmptyLedgerIsSound();
    hide Oversize, ScanBytes, Encode, Acceptable, DigestOf, Readable, Scannable;
    AddedStaysReadableIff(Opened(false, []), Oversize());
  }

  lemma OversizeFacts()
    ensures Acceptable(Oversize()) && !Readable(Oversize())
  {
    assert Oversize().payload in Fields(Oversize());
  }

  lemma EmptyLedgerIsSound()
    ensures var l := Opened(false, []); Sound(l) && Scannable(l) && Entries(l) == []
  {
  }

  /** The instance trusts its index over a file that nobody can scan any more. */
  predicate Blind(l: Ledger) {
    Trusted(l) && !l.torn && !Scannable(l)
  }

  /** The instance that adds an oversize record is blind after it, and only that one is. */
  lemma AddedBlindsIff(l: Ledger, e: Evidence)
    requires Sound(l) && Scannable(l) && Accepts(Entries(l), e)
    ensures Blind(Append(l, e)) <==> !Readable(e)
  {
    hide Encode, ScanBytes, Acceptable, DigestOf, Readable;
    AddedStaysReadableIff(l, e);
    RefreshAgrees(l);
  }

  /**
   A blind instance never notices: it goes on answering Added for acceptable records it does not know
   and writes them, while the file stays unreadable and the instance blind.
   */
  lemma BlindStaysBlind(l: Ledger, e: Evidence)
    requires Blind(l)
    ensures AppendOutcome(l, e) == (if Acceptable(e) && DigestOf(e) !in l.index then Added else Refused)
    ensures var l' := Append(l, e);
            Blind(l') && l'.file == if AppendOutcome(l, e) == Added then l.file + Encode(e) else l.file
  {
    hide Encode, ScanBytes, Acceptable, DigestOf;
    BrokenStaysBroken(l.file, Encode(e));
  }

  /** Once unreadable, every append through a newly opened ledger throws and changes no byte. */
  lemma BrokenFileThrows(l: Ledger, e: Evidence)
    requires !Scannable(l) && !Trusted(l) && Acceptable(e)
    ensures AppendOutcome(l, e) == Threw && Append(l, e).file == l.file
  {
    hide Encode, ScanBytes, Acceptable, DigestOf;
  }

  /**
   A crash during an append leaves a file that can be opened again exactly when some byte is in
   it: a complete earlier record, or the first byte of the new one.
   */
  lemma ReopensAfterCrashIff(l: Ledger, e: Evidence, n: nat)
    requires Sound(l) && Scannable(l) && Accepts(Entries(l), e) && n <= |Encode(e)|
    ensures var l' := CutOff(l, e, n);
            CanOpen(l'.present, l'.file) <==> Entries(l) != [] || n > 0
  {
    hide Encode, ScanBytes, Acceptable, DigestOf;
    RefreshAgrees(l);
    RepairKeepsRecords(Refresh(l));
    if Entries(l) != [] {
      EncodeAllJoin([], Entries(l));
    }
  }

  lemma EncodeLength(e: Evidence)
    ensures |Encode(e)| == 62 + |e.source| + |e.eventType| + |e.subject| + |e.payload|
  {
    var f := EncodeFields([]);
    assert EncodeFields([e.payload]) == EncodeField(e.payload) + f;
    assert EncodeFields([e.subject, e.payload]) == EncodeField(e.subject) + EncodeFields([e.payload]);
    assert EncodeFields([e.eventType, e.subject, e.payload]) ==
           EncodeField(e.eventType) + EncodeFields([e.subject, e.payload]);
    assert EncodeFields(Fields(e)) == EncodeField(e.source) + EncodeFields([e.eventType, e.subject, e.payload]);
  }

  function Note(payload: Text): Evidence {
    Evidence(Sync, Verified, [1], [1], [1], payload, 1, 1, 0)
  }

  lemma NoteFacts(payload: Text)
    requires 0 < |payload| <= FIELD_LIMIT
    ensures Acceptable(Note(payload)) && Readable(Note(payload)) && |Encode(Note(payload))| == 65 + |payload|
  {
    EncodeLength(Note(payload));
  }

  lemma NotesDiffer(a: byte, b: byte)
    requires a != b
    ensures DigestOf(Note([a])) != DigestOf(Note([b]))
  {
    var fs, gs := MixedFields(Note([a])), MixedFields(Note([b]));
    assert DifferOnlyAt(fs[4], gs[4], 0);
    assert fs[..4] == gs[..4] && fs[5..] == gs[5..];
    OneByteSeparatesDigests(Note([a]), Note([b]));
  }

  function LaterNote(): Evidence {
    Note([1]).(sequence := 2)
  }

  /** Two records that differ only in their sequence: the second is refused, though it is not in the list. */
  lemma SequenceIsNotCompared()
    ensures Note([1]) != LaterNote() && Acceptable(LaterNote())
    ensures AcceptsByValue([Note([1])], LaterNote()) && !Accepts([Note([1])], LaterNote())
  {
    hide DigestOf, Digests;
    SameFactIsDuplicate([Note([1])], Note([1]), LaterNote());
  }
}
