/**
 What trusting the index by file size alone is worth. While one instance is idle, others may write,
 repair and crash; its index stays right exactly as long as they do not put new records into a file
 of the old size, and in that one case its next append drops their records.
 */
module TrustBySize {
  import opened Bytes
  import opened EvidenceCodec
  import opened EvidenceDigest
  import opened EvidenceStore
  import opened LedgerMachine

  /** The idle instance once others have changed the file. */
  function After(l: Ledger, file: seq<byte>): Ledger {
    l.(present := true, file := file)
  }

  /** The file has another size than the one indexed, or the very same records. */
  predicate Noticed(l: Ledger, file: seq<byte>) {
    |file| != |l.file| || (!ScanBytes(file).status.Broken? && ScanBytes(file).entries == Entries(l))
  }

  /**
   For any file that still begins with the indexed records, however it came about: trust in the index
   is justified exactly when the size has changed or the records have not.
   */
  lemma TrustIff(l: Ledger, file: seq<byte>)
    requires Trusted(l) && IndexAgrees(l) && Entries(l) <= ScanBytes(file).entries
    ensures TrustHolds(After(l, file)) <==> Noticed(l, file)
  {
    hide ScanBytes, Encode, Digests;
    var r := ScanBytes(file);
    GoodEnds(l.file);
    GoodEnds(file);
    if |file| == |l.file| && r.entries != Entries(l) {
      LongerEndsLater(Entries(l), r.entries);
    }
  }

  /** The good end is where the records end, and the tail is torn when bytes follow it. */
  lemma GoodEnds(file: seq<byte>)
    ensures var r := ScanBytes(file);
            && r.goodEnd == |EncodeAll(r.entries)| <= |file| && file[..r.goodEnd] == EncodeAll(r.entries)
            && (r.status.Whole? ==> r.goodEnd == |file|) && (r.status.TornTail? ==> r.goodEnd < |file|)
            && AllReadable(r.entries)
  {
    hide ScanBytes, Encode;
    ScanSound(file);
  }

  lemma LongerEndsLater(a: seq<Evidence>, b: seq<Evidence>)
    requires a <= b && a != b
    ensures |EncodeAll(a)| < |EncodeAll(b)| && EncodeAll(b)[..|EncodeAll(a)|] == EncodeAll(a)
  {
    hide Encode;
    assert b == a + b[|a|..];
    EncodeAllJoin(a, b[|a|..]);
  }

  /** Where trust is justified the next append does what it promises, even if the file has shrunk meanwhile. */
  lemma JustifiedAppend(l: Ledger, e: Evidence)
    requires TrustHolds(l) && Scannable(l) && l.present && Readable(e)
    ensures Entries(Append(l, e)) == Insert(Entries(l), e)
    ensures Acceptable(e) ==> Sound(Append(l, e))
  {
    hide Encode, ScanBytes, Acceptable, DigestOf, Readable, IndexAgrees;
    if Trusted(l) {
      AppendRefines(l, e);
    } else if Acceptable(e) {
      var unindexed := l.(indexValid := false);
      AppendRefines(unindexed, e);
      assert Refresh(unindexed) == Refresh(l);
    }
  }

  /** Where it is not, the next accepted append repairs at the old good end and drops every new record. */
  lemma UnjustifiedAppend(l: Ledger, file: seq<byte>, e: Evidence)
    requires Trusted(l) && IndexAgrees(l) && Entries(l) <= ScanBytes(file).entries && !ScanBytes(file).status.Broken?
    requires !Noticed(l, file) && Readable(e) && Accepts(ScanBytes(file).entries, e)
    ensures Entries(Append(After(l, file), e)) == Entries(l) + [e]
  {
    hide Encode, ScanBytes, Acceptable, DigestOf, Readable;
    var a, b, v := Entries(l), ScanBytes(file).entries, After(l, file);
    GoodEnds(l.file);
    GoodEnds(file);
    LongerEndsLater(a, b);
    assert v.torn && l.goodEnd == |EncodeAll(a)|;
    assert file[..l.goodEnd] == EncodeAll(b)[..l.goodEnd];
    assert forall x :: x in a ==> x in b;
    assert Writes(v, e);
    assert Encode(e)[..|Encode(e)|] == Encode(e);
    ScanAfterPartialWrite(a, e, |Encode(e)|);
  }

  /**
   The exact condition on what others do. An accepted append after any change that keeps the indexed
   records adds its record to all those in the file exactly when the change is noticed.
   */
  lemma NextAppendIff(l: Ledger, file: seq<byte>, e: Evidence)
    requires Trusted(l) && IndexAgrees(l) && Entries(l) <= ScanBytes(file).entries && !ScanBytes(file).status.Broken?
    requires Readable(e) && Accepts(ScanBytes(file).entries, e)
    ensures Entries(Append(After(l, file), e)) == ScanBytes(file).entries + [e] <==> Noticed(l, file)
    ensures !Noticed(l, file) ==> Entries(Append(After(l, file), e)) == Entries(l) + [e]
  {
    hide Encode, ScanBytes, Acceptable, DigestOf, Readable, TrustHolds, IndexAgrees, Append, Trusted, Noticed;
    TrustIff(l, file);
    if Noticed(l, file) {
      JustifiedAppend(After(l, file), e);
    } else {
      UnjustifiedAppend(l, file, e);
      UnnoticedIsMore(l, file);
    }
  }

  lemma UnnoticedIsMore(l: Ledger, file: seq<byte>)
    requires !Noticed(l, file) && !ScanBytes(file).status.Broken?
    ensures ScanBytes(file).entries != Entries(l)
  {
  }

  /**
   Any run of other instances on the file, whatever state the first of them is in: appends, appends
   cut off by a crash, whole foreign records, reopening. The idle instance's trust stays justified, and
   its next accepted append loses nothing, exactly when the run has left another size or no new record.
   */
  lemma OthersRunIff(l: Ledger, other: Ledger, steps: seq<Step>)
    requires Trusted(l) && IndexAgrees(l) && Sound(other) && other.file == l.file && AllPermitted(other, steps)
    ensures var file, es := Run(other, steps).file, IdealRun(Entries(l), steps);
            && ScanBytes(file).entries == es && Entries(l) <= es && !ScanBytes(file).status.Broken?
            && (Noticed(l, file) <==> |file| != |l.file| || es == Entries(l))
            && (TrustHolds(After(l, file)) <==> Noticed(l, file))
            && forall e :: Readable(e) && Accepts(es, e) ==>
                 (Entries(Append(After(l, file), e)) == es + [e] <==> Noticed(l, file))
  {
    hide Encode, ScanBytes, Acceptable, DigestOf, Readable, TrustHolds, Append, Accepts, AllPermitted, Run, IdealRun, Trusted;
    RunRefines(other, steps);
    var file, es := Run(other, steps).file, IdealRun(Entries(l), steps);
    TrustIff(l, file);
    forall e | Readable(e) && Accepts(es, e)
      ensures Entries(Append(After(l, file), e)) == es + [e] <==> Noticed(l, file)
    {
      NextAppendIff(l, file, e);
    }
  }

  // ---------------------------------------------------------------- runs in which it fails

  /** An instance that has indexed one record and a torn tail of `n` bytes by refusing a duplicate. */
  function Opening(e1: Evidence, cut: Evidence, n: nat): Ledger {
    Append(Opened(true, Encode(e1) + Start(Encode(cut), n)), e1)
  }

  function Start(s: seq<byte>, n: nat): seq<byte> {
    if n <= |s| then s[..n] else s
  }

  /**
   Another instance opens the file and takes the steps; then both records can be read, until the idle
   instance appends a third and the second is gone.
   */
  predicate DropsTheSecond(l: Ledger, steps: seq<Step>, e1: Evidence, e2: Evidence, e3: Evidence) {
    && Entries(l) == [e1]
    && AllPermitted(Opened(true, l.file), steps)
    && var f := After(l, Run(Opened(true, l.file), steps).file);
       Entries(f) == [e1, e2] && Entries(Append(f, e3)) == [e1, e3]
  }

  lemma OpeningFacts(e1: Evidence, cut: Evidence, n: nat)
    requires Readable(e1) && Readable(cut) && Acceptable(e1) && 0 < n < |Encode(cut)|
    ensures var l := Opening(e1, cut, n);
            && Trusted(l) && IndexAgrees(l) && Entries(l) == [e1]
            && l.file == Encode(e1) + Encode(cut)[..n] && EncodeAll([e1]) == Encode(e1)
  {
    hide Encode, ScanBytes, Acceptable, DigestOf, Readable;
    var o := Opened(true, Encode(e1) + Encode(cut)[..n]);
    assert EncodeAll([e1]) == Encode(e1) + [] == Encode(e1);
    ScanAfterPartialWrite([e1], cut, n);
    RefreshAgrees(o);
    assert Digests([e1]) == {DigestOf(e1)};
    assert Append(o, e1) == Refresh(o);
  }

  /** What an append, whole or cut off, leaves in the file. */
  lemma CutOffFile(l: Ledger, e: Evidence, n: nat)
    requires Sound(l) && Scannable(l) && Readable(e) && n <= |Encode(e)| && Accepts(Entries(l), e)
    ensures CutOff(l, e, n).file == EncodeAll(Entries(l)) + Encode(e)[..n]
  {
    hide Encode, ScanBytes, Acceptable, DigestOf;
    RefreshAgrees(l);
    RepairKeepsRecords(Refresh(l));
  }

  /** The steps of another instance: it appends a record, and crashes `k` bytes into a second. */
  function AppendThenCrash(e2: Evidence, e4: Evidence, k: nat): seq<Step> {
    [AppendStep(e2), CutOffStep(e4, k)]
  }

  lemma TwoSteps(l: Ledger, e2: Evidence, e4: Evidence, k: nat)
    requires Sound(l) && Scannable(l) && Readable(e2) && Readable(e4) && k <= |Encode(e4)|
    requires Accepts(Entries(l), e2) && Accepts(Entries(l) + [e2], e4)
    ensures AllPermitted(l, AppendThenCrash(e2, e4, k)) && AllPermitted(l, [AppendStep(e2)])
    ensures Run(l, [AppendStep(e2)]).file == EncodeAll(Entries(l) + [e2])
    ensures Run(l, AppendThenCrash(e2, e4, k)).file == EncodeAll(Entries(l) + [e2]) + Encode(e4)[..k]
    ensures IdealRun(Entries(l), [AppendStep(e2)]) == Entries(l) + [e2]
    ensures k < |Encode(e4)| ==> IdealRun(Entries(l), AppendThenCrash(e2, e4, k)) == Entries(l) + [e2]
  {
    hide Encode, ScanBytes, Acceptable, DigestOf, Readable, Append, CutOff, Accepts, Sound, AllPermitted, Run, IdealRun;
    var append, crash := AppendStep(e2), CutOffStep(e4, k);
    AppendRefines(l, e2);
    CutOffFile(Append(l, e2), e4, k);
    FirstStep(l, append, []);
    FirstStep(l, append, [crash]);
    FirstStep(Append(l, e2), crash, []);
    assert [append] + [] == [append] && [crash] + [] == [crash] && [append] + [crash] == AppendThenCrash(e2, e4, k);
  }

  lemma FirstStep(l: Ledger, s: Step, rest: seq<Step>)
    requires Permitted(l, s)
    ensures AllPermitted(l, [s] + rest) <==> AllPermitted(Do(l, s), rest)
    ensures AllPermitted(Do(l, s), rest) ==> Run(l, [s] + rest) == Run(Do(l, s), rest)
    ensures forall es :: IdealRun(es, [s] + rest) == IdealRun(Ideal(es, s), rest)
    ensures rest == [] ==> AllPermitted(Do(l, s), rest) && Run(Do(l, s), rest) == Do(l, s)
    ensures rest == [] ==> forall es :: IdealRun(es, rest) == es
  {
    hide Do, Ideal, Permitted;
    assert ([s] + rest)[1..] == rest;
  }

  /**
   Another instance opens the same file, repairs it and appends a record, and perhaps crashes early in
   its next append. If its bytes add up to the dropped tail, the first instance's next append removes
   the other's whole record.
   */
  lemma Story(e1: Evidence, e2: Evidence, e3: Evidence, e4: Evidence, cut: Evidence, k: nat)
    requires Readable(e1) && Readable(e2) && Readable(e3) && Readable(e4) && Readable(cut)
    requires Acceptable(e1) && Accepts([e1], e2) && Accepts([e1, e2], e3) && Accepts([e1, e2], e4)
    requires k < |Encode(e4)| && |Encode(e2)| + k < |Encode(cut)|
    ensures DropsTheSecond(Opening(e1, cut, |Encode(e2)| + k),
                           if k == 0 then [AppendStep(e2)] else AppendThenCrash(e2, e4, k), e1, e2, e3)
  {
    hide Encode, ScanBytes, Acceptable, DigestOf, Readable, Append, Accepts, Opening, AllPermitted, Run, IdealRun, Noticed;
    var n := |Encode(e2)| + k;
    OpeningFacts(e1, cut, n);
    var l := Opening(e1, cut, n);
    var o := Opened(true, l.file);
    assert [e1] + [e2] == [e1, e2] && [e1] + [e3] == [e1, e3];
    TwoSteps(o, e2, e4, k);
    var steps := if k == 0 then [AppendStep(e2)] else AppendThenCrash(e2, e4, k);
    OthersRunIff(l, o, steps);
    var file := Run(o, steps).file;
    EncodeAllJoin([e1], [e2]);
    assert EncodeAll([e2]) == Encode(e2) + [] == Encode(e2);
    assert |file| == |l.file|;
    NextAppendIff(l, file, e3);
  }

  /** A note is accepted after notes of other contents. */
  lemma NoteIsNew(es: seq<byte>, k: byte)
    requires k !in es
    ensures Accepts(Notes(es), Note([k]))
  {
    hide Note, DigestOf, Acceptable;
    NoteFacts([k]);
    forall x | x in Notes(es)
      ensures DigestOf(x) != DigestOf(Note([k]))
    {
      var i :| 0 <= i < |es| && x == Note([es[i]]);
      NotesDiffer(es[i], k);
    }
  }

  function Notes(es: seq<byte>): seq<Evidence> {
    seq(|es|, i requires 0 <= i < |es| => Note([es[i]]))
  }

  lemma NotesAreNew()
    ensures Accepts([Note([1])], Note([2]))
    ensures Accepts([Note([1]), Note([2])], Note([3])) && Accepts([Note([1]), Note([2])], Note([5]))
  {
    hide Note, Accepts;
    NoteIsNew([1], 2);
    NoteIsNew([1, 2], 3);
    NoteIsNew([1, 2], 5);
    assert Notes([1]) == [Note([1])] && Notes([1, 2]) == [Note([1]), Note([2])];
  }

  lemma NoteSizes()
    ensures forall k: byte :: Acceptable(Note([k])) && Readable(Note([k])) && |Encode(Note([k]))| == 66
    ensures Readable(Note([4, 4, 4])) && |Encode(Note([4, 4, 4]))| == 68
  {
    hide Note, Encode, Acceptable, Readable;
    forall k: byte
      ensures Acceptable(Note([k])) && Readable(Note([k])) && |Encode(Note([k]))| == 66
    {
      NoteFacts([k]);
    }
    NoteFacts([4, 4, 4]);
  }

  /** Records for which it happens when the other instance's record fills the tail exactly. */
  lemma ExactFillExample()
    ensures DropsTheSecond(Opening(Note([1]), Note([4, 4, 4]), 66), [AppendStep(Note([2]))],
                           Note([1]), Note([2]), Note([3]))
  {
    hide Note, Encode, Acceptable, Readable, Opening, Accepts, DropsTheSecond, AppendThenCrash;
    NoteSizes();
    NotesAreNew();
    Story(Note([1]), Note([2]), Note([3]), Note([5]), Note([4, 4, 4]), 0);
  }

  /** And when it is one byte short and the other instance crashes one byte into its next append. */
  lemma CrashFillExample()
    ensures DropsTheSecond(Opening(Note([1]), Note([4, 4, 4]), 67), AppendThenCrash(Note([2]), Note([5]), 1),
                           Note([1]), Note([2]), Note([3]))
  {
    hide Note, Encode, Acceptable, Readable, Opening, Accepts, DropsTheSecond, AppendThenCrash;
    NoteSizes();
    NotesAreNew();
    Story(Note([1]), Note([2]), Note([3]), Note([5]), Note([4, 4, 4]), 1);
  }
}
