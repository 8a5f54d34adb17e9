/**
 Torn tails. The reader calls a file torn whenever it ends before the reader could object. A crash
 leaves such a tail, but so do some bytes that no crash can leave; this module says exactly which.
 */
module CrashTail {
  import opened Bytes
  import opened EvidenceCodec
  import opened EvidenceStore
  import Sequences

  const WORD: nat := 0x1_0000_0000_0000_0000

  /** A writer: whether it writes acceptable records only, and the longest field it writes. */
  datatype Writer = Writer(strict: bool, limit: nat)

  /** A writer of whatever records the reader can read back. */
  const READABLE := Writer(false, FIELD_LIMIT)
  /** The ledger's own append, which has no size cap. */
  const APPEND := Writer(true, WORD - 1)

  predicate ValidWriter(w: Writer) {
    FIELD_LIMIT <= w.limit < WORD
  }

  predicate Writes(w: Writer, e: Evidence) {
    && (w.strict ==> Acceptable(e))
    && Within(Fields(e), w)
  }

  /** The fields are no longer than the writer's limit and, from a strict writer, not empty. */
  predicate Within(fs: seq<Text>, w: Writer) {
    forall f :: f in fs ==> Least(w) <= |f| <= w.limit
  }

  function Least(w: Writer): nat {
    if w.strict then 1 else 0
  }

  /** What a crash in the middle of writing some record leaves of it. */
  ghost predicate Remains(t: seq<byte>, w: Writer) {
    exists e: Evidence, n: nat :: Writes(w, e) && n < |Encode(e)| && t == Encode(e)[..n]
  }

  // ---------------------------------------------------------------- the test

  /** The smallest size the writer writes that begins with these bytes. */
  function SmallestSize(s: seq<byte>, w: Writer): nat {
    if FromLittleEndian(s) >= Least(w) then FromLittleEndian(s) else Pow256(|s|)
  }

  /** `s` ends inside the `n` fields it starts, and every size in it is, or can still become, permitted. */
  predicate CleanFields(s: seq<byte>, n: nat, w: Writer) {
    n > 0 &&
    if |s| < 8 then SmallestSize(s, w) <= w.limit
    else
      var size := FromLittleEndian(s[..8]);
      Least(w) <= size <= w.limit && (|s| - 8 < size || CleanFields(s[8 + size..], n - 1, w))
  }

  /** The sequence and the time are not both zero, and the confidence is in range, as far as they are present. */
  predicate CleanHeader(t: seq<byte>) {
    && (|t| >= 22 ==> exists i :: 6 <= i < 22 && t[i] != 0)
    && (|t| >= 30 ==> ConfidenceInRange(WordAt(t, 22)))
  }

  /** The magic bytes and the two tags match as far as they are present, and header and fields are clean. */
  predicate CleanTail(t: seq<byte>, w: Writer) {
    && (forall i :: 0 <= i < 4 && i < |t| ==> t[i] == LittleEndian(MAGIC, 4)[i])
    && (|t| > 4 ==> t[4] <= 5)
    && (|t| > 5 ==> t[5] <= 2)
    && (w.strict ==> CleanHeader(t))
    && (|t| >= 30 ==> CleanFields(t[30..], 4, w))
  }

  // ---------------------------------------------------------------- a size cut short

  lemma {:induction false} LittleEndianPrefix(value: nat, width: nat, k: nat)
    requires k <= width
    ensures LittleEndian(value, width)[..k] == LittleEndian(value, k)
  {
    if k > 0 {
      LittleEndianPrefix(value / 256, width - 1, k - 1);
      assert LittleEndian(value, width)[..k] == [value % 256] + LittleEndian(value / 256, width - 1)[..k - 1];
    }
  }

  /** The low bytes of a value are the value less some multiple of what they can count. */
  lemma {:induction false} LowBytes(value: nat, k: nat)
    ensures FromLittleEndian(LittleEndian(value, k)) <= value
    ensures FromLittleEndian(LittleEndian(value, k)) == 0 ==> value == 0 || value >= Pow256(k)
  {
    if k > 0 {
      LowBytes(value / 256, k - 1);
      assert LittleEndian(value, k)[1..] == LittleEndian(value / 256, k - 1);
    }
  }

  lemma {:induction false} PowerHasZeroBytes(k: nat)
    ensures FromLittleEndian(LittleEndian(Pow256(k), k)) == 0
    ensures LittleEndian(Pow256(k), k) == LittleEndian(0, k)
  {
    if k > 0 {
      PowerHasZeroBytes(k - 1);
      assert Pow256(k) / 256 == Pow256(k - 1) && Pow256(k) % 256 == 0;
      assert LittleEndian(Pow256(k), k)[1..] == LittleEndian(Pow256(k - 1), k - 1);
    }
  }

  /** Some permitted size begins with the bytes exactly when the smallest such size is permitted. */
  lemma SmallestSizeFits(s: seq<byte>, w: Writer)
    requires |s| <= 8 && SmallestSize(s, w) <= w.limit < WORD
    ensures Least(w) <= SmallestSize(s, w)
    ensures LittleEndian(SmallestSize(s, w), 8)[..|s|] == s
  {
    hide LittleEndian, FromLittleEndian, Pow256;
    FromLittleEndianRoundTrip(s);
    LittleEndianPrefix(SmallestSize(s, w), 8, |s|);
    PowerHasZeroBytes(|s|);
  }

  lemma SizeBytesAreClean(size: nat, k: nat, w: Writer)
    requires k < 8 && Least(w) <= size <= w.limit
    ensures SmallestSize(LittleEndian(size, 8)[..k], w) <= w.limit
  {
    hide LittleEndian, FromLittleEndian, Pow256;
    LittleEndianPrefix(size, 8, k);
    LowBytes(size, k);
  }

  // ---------------------------------------------------------------- fields cut short

  lemma FieldsUnfold(fs: seq<Text>)
    requires fs != []
    ensures EncodeFields(fs) == LittleEndian(|fs[0]|, 8) + (fs[0] + EncodeFields(fs[1..]))
  {
    hide LittleEndian;
    Sequences.Associate<byte>(LittleEndian(|fs[0]|, 8), fs[0], EncodeFields(fs[1..]));
  }

  lemma WithinUnfold(fs: seq<Text>, w: Writer)
    requires fs != []
    ensures Within(fs, w) <==> Least(w) <= |fs[0]| <= w.limit && Within(fs[1..], w)
  {
    assert fs == [fs[0]] + fs[1..];
    assert forall f: Text :: f in fs <==> f == fs[0] || f in fs[1..];
  }

  lemma CleanUnfold(s: seq<byte>, n: nat, w: Writer)
    ensures |s| < 8 ==> (CleanFields(s, n, w) <==> n > 0 && SmallestSize(s, w) <= w.limit)
    ensures |s| >= 8 ==>
              var size := FromLittleEndian(s[..8]);
              (CleanFields(s, n, w) <==> n > 0 && Least(w) <= size <= w.limit &&
                                         (|s| - 8 < size || CleanFields(s[8 + size..], n - 1, w)))
  {
    hide FromLittleEndian, SmallestSize, Least;
  }

  /** Cutting permitted fields leaves clean fields. */
  lemma {:induction false} CutFieldsAreClean(fs: seq<Text>, k: nat, w: Writer)
    requires Within(fs, w) && k < |EncodeFields(fs)|
    ensures CleanFields(EncodeFields(fs)[..k], |fs|, w)
    decreases |fs|
  {
    hide LittleEndian, FromLittleEndian, CleanFields, Within, SmallestSize, Least;
    assert fs != [];
    var f: seq<byte>, others: seq<byte> := fs[0], EncodeFields(fs[1..]);
    var p := LittleEndian(|f|, 8);
    FieldsUnfold(fs);
    WithinUnfold(fs, w);
    var s := EncodeFields(fs)[..k];
    CleanUnfold(s, |fs|, w);
    if k < 8 {
      assert s == p[..k];
      SizeBytesAreClean(|f|, k, w);
    } else {
      assert s == p + (f + others)[..k - 8];
      assert s[..8] == p;
      WordRoundTrip(|f|);
      if k - 8 >= |f| {
        var q := k - 8 - |f|;
        assert s[8 + |f|..] == others[..q];
        CutFieldsAreClean(fs[1..], q, w);
      }
    }
  }

  function Zeros(n: nat): (z: seq<byte>)
    ensures |z| == n && forall i :: 0 <= i < n ==> z[i] == 0
  {
    seq(n, _ => 0)
  }

  /** One-byte fields, which every writer writes. */
  function Fillers(n: nat): seq<Text> {
    if n == 0 then [] else [[0]] + Fillers(n - 1)
  }

  /** Fields that begin with the given clean bytes. */
  function Completion(s: seq<byte>, n: nat, w: Writer): seq<Text>
    requires ValidWriter(w) && CleanFields(s, n, w)
    decreases n
  {
    if |s| < 8 then [Zeros(SmallestSize(s, w))] + Fillers(n - 1)
    else
      var size := FromLittleEndian(s[..8]);
      if |s| - 8 < size then [s[8..] + Zeros(size - (|s| - 8))] + Fillers(n - 1)
      else [s[8..8 + size]] + Completion(s[8 + size..], n - 1, w)
  }

  lemma {:induction false} FillersFacts(n: nat, w: Writer)
    requires ValidWriter(w)
    ensures |Fillers(n)| == n && Within(Fillers(n), w)
  {
    if n > 0 {
      FillersFacts(n - 1, w);
    }
  }

  /** One field whose encoding strictly extends `s`, followed by fillers. */
  lemma CompleteFirst(s: seq<byte>, f: Text, n: nat, w: Writer)
    requires ValidWriter(w) && Least(w) <= |f| <= w.limit && |s| < 8 + |f| && s == EncodeField(f)[..|s|]
    ensures var fs := [f] + Fillers(n);
            && |fs| == n + 1 && Within(fs, w)
            && |s| < |EncodeFields(fs)| && EncodeFields(fs)[..|s|] == s
  {
    hide Within, LittleEndian, Fillers;
    var fs := [f] + Fillers(n);
    FillersFacts(n, w);
    assert fs[1..] == Fillers(n);
    FieldsUnfold(fs);
    WithinUnfold(fs, w);
    assert EncodeFields(fs) == EncodeField(f) + EncodeFields(fs[1..]);
  }

  lemma {:induction false} CompletionExtends(s: seq<byte>, n: nat, w: Writer)
    requires ValidWriter(w) && CleanFields(s, n, w)
    ensures var fs := Completion(s, n, w);
            && |fs| == n && Within(fs, w)
            && |s| < |EncodeFields(fs)| && EncodeFields(fs)[..|s|] == s
    decreases n
  {
    hide LittleEndian, FromLittleEndian, Within, SmallestSize, Fillers, EncodeFields, Least;
    if |s| < 8 {
      var f := Zeros(SmallestSize(s, w));
      SmallestSizeFits(s, w);
      assert EncodeField(f)[..|s|] == LittleEndian(|f|, 8)[..|s|];
      CompleteFirst(s, f, n - 1, w);
    } else {
      var size := FromLittleEndian(s[..8]);
      EightBytesRoundTrip(s[..8]);
      if |s| - 8 < size {
        var f := s[8..] + Zeros(size - (|s| - 8));
        assert EncodeField(f)[..|s|] == s[..8] + s[8..] == s;
        CompleteFirst(s, f, n - 1, w);
      } else {
        CompleteLater(s, n, w, size);
      }
    }
  }

  lemma CompleteLater(s: seq<byte>, n: nat, w: Writer, size: nat)
    requires ValidWriter(w) && CleanFields(s, n, w) && |s| >= 8 && size == FromLittleEndian(s[..8]) <= |s| - 8
    ensures var fs := Completion(s, n, w);
            && |fs| == n && Within(fs, w)
            && |s| < |EncodeFields(fs)| && EncodeFields(fs)[..|s|] == s
    decreases n, 0
  {
    hide LittleEndian, FromLittleEndian, Within, SmallestSize, Fillers, EncodeFields, Least;
    EightBytesRoundTrip(s[..8]);
    var f, rest := s[8..8 + size], s[8 + size..];
    CompletionExtends(rest, n - 1, w);
    var fs := Completion(s, n, w);
    assert fs[1..] == Completion(rest, n - 1, w);
    FieldsUnfold(fs);
    WithinUnfold(fs, w);
    var more := EncodeFields(fs[1..]);
    assert s == s[..8] + (f + rest);
    assert EncodeFields(fs)[..|s|] == s[..8] + (f + more[..|rest|]);
  }

  // ---------------------------------------------------------------- records cut short

  lemma EncodeParts(e: Evidence)
    ensures |Encode(e)| == 30 + |EncodeFields(Fields(e))|
    ensures Encode(e)[..4] == LittleEndian(MAGIC, 4)
    ensures Encode(e)[4..30] == EncodeHeader(e)
    ensures Encode(e)[30..] == EncodeFields(Fields(e))
    ensures Encode(e)[4] <= 5 && Encode(e)[5] <= 2
    ensures Encode(e) == LittleEndian(MAGIC, 4) + (EncodeHeader(e) + EncodeFields(Fields(e)))
  {
    hide LittleEndian, EncodeFields, EncodeHeader, FromParts;
    HeaderRoundTrip(e);
    var m, h, b := LittleEndian(MAGIC, 4), EncodeHeader(e), EncodeFields(Fields(e));
    assert Encode(e) == m + (h + b);
    assert Encode(e)[4] == h[0] && Encode(e)[5] == h[1];
  }

  lemma ZeroSpelling()
    ensures LittleEndian(0, 8) == Zeros(8)
  {
    forall i | 0 <= i < 8
      ensures LittleEndian(0, 8)[i] == 0
    {
      ZeroAt(8, i);
    }
  }

  lemma {:induction false} ZeroAt(width: nat, i: nat)
    requires i < width
    ensures LittleEndian(0, width)[i] == 0
  {
    if i > 0 {
      ZeroAt(width - 1, i - 1);
    }
  }

  lemma ZeroWord(value: u64)
    requires forall i :: 0 <= i < 8 ==> LittleEndian(value, 8)[i] == 0
    ensures value == 0
  {
    hide LittleEndian, FromLittleEndian;
    assert LittleEndian(value, 8) == Zeros(8);
    ZeroSpelling();
    WordRoundTrip(value);
    WordRoundTrip(0);
  }

  /** The header of an acceptable record has a clean sequence, time and confidence. */
  lemma AcceptableHeader(e: Evidence)
    requires Acceptable(e)
    ensures var h := EncodeHeader(e);
            && (exists i :: 2 <= i < 18 && h[i] != 0)
            && ConfidenceInRange(WordAt(h, 18))
  {
    hide LittleEndian, FromLittleEndian, KindTag, VerificationTag, ConfidenceInRange;
    var h := EncodeHeader(e);
    var a, b, c := LittleEndian(e.sequence, 8), LittleEndian(e.observedAt, 8), LittleEndian(e.confidence, 8);
    assert h == [KindTag(e.kind), VerificationTag(e.verification)] + (a + (b + c));
    assert h[18..26] == c;
    WordRoundTrip(e.confidence);
    if forall i :: 2 <= i < 18 ==> h[i] == 0 {
      assert forall i :: 0 <= i < 8 ==> a[i] == h[i + 2] && b[i] == h[i + 10];
      ZeroWord(e.sequence);
      ZeroWord(e.observedAt);
      assert false;
    }
  }

  lemma RemainsHeader(e: Evidence, n: nat)
    requires Acceptable(e) && n < |Encode(e)|
    ensures CleanHeader(Encode(e)[..n])
  {
    hide LittleEndian, FromLittleEndian, Encode, EncodeFields, EncodeHeader, Acceptable, ConfidenceInRange;
    EncodeParts(e);
    AcceptableHeader(e);
    var t, x := Encode(e)[..n], Encode(e);
    var i :| 2 <= i < 18 && EncodeHeader(e)[i] != 0;
    assert x[4..30][i] == x[i + 4];
    if n >= 22 {
      assert t[i + 4] == x[i + 4];
    }
    if n >= 30 {
      assert t[22..30] == x[22..30] == x[4..30][18..26];
    }
  }

  lemma RemainsAreClean(e: Evidence, n: nat, w: Writer)
    requires Writes(w, e) && n < |Encode(e)|
    ensures CleanTail(Encode(e)[..n], w)
  {
    hide LittleEndian, Encode, EncodeFields, EncodeHeader, CleanFields, Acceptable, Within, CleanHeader;
    EncodeParts(e);
    var t, x := Encode(e)[..n], Encode(e);
    assert forall i :: 0 <= i < 4 ==> x[i] == x[..4][i];
    if w.strict {
      RemainsHeader(e, n);
    }
    if n >= 30 {
      assert t[30..] == EncodeFields(Fields(e))[..n - 30];
      CutFieldsAreClean(Fields(e), n - 30, w);
    }
  }

  /** The twenty-six header bytes a short tail is filled up to: the last byte of the time makes it non-zero. */
  function FilledHeader(t: seq<byte>): (h: seq<byte>)
    requires |t| < 30
    ensures |h| == HEADER_BYTES
    ensures forall i :: 4 <= i < |t| ==> h[i - 4] == t[i]
  {
    var part := if |t| <= 4 then [] else t[4..];
    var rest := Zeros(HEADER_BYTES - |part|);
    part + if |part| <= 17 then rest[17 - |part| := 1] else rest
  }

  function HeaderOf(t: seq<byte>): (h: seq<byte>)
    ensures |h| == HEADER_BYTES
    ensures forall i :: 4 <= i < |t| && i < 30 ==> h[i - 4] == t[i]
  {
    if |t| < 30 then FilledHeader(t) else t[4..30]
  }

  /** Eight bytes of which the last is zero are the bits of a small, and so a permitted, confidence. */
  lemma SmallWord(s: seq<byte>)
    requires |s| == 8 && s[7] == 0
    ensures FromLittleEndian(s) < 0x100_0000_0000_0000
  {
    assert s == s[..7] + [0];
    DropZero(s[..7]);
    FromLittleEndianRoundTrip(s[..7]);
    WordFitsEightBytes();
    assert Pow256(8) == 256 * Pow256(7);
  }

  lemma {:induction false} DropZero(s: seq<byte>)
    ensures FromLittleEndian(s + [0]) == FromLittleEndian(s)
  {
    if s != [] {
      DropZero(s[1..]);
      assert (s + [0])[1..] == s[1..] + [0];
    } else {
      assert s + [0] == [0];
      assert FromLittleEndian([0][1..]) == 0;
    }
  }

  lemma HeaderOfIsClean(t: seq<byte>, w: Writer)
    requires CleanTail(t, w)
    ensures var h := HeaderOf(t);
            && h[0] <= 5 && h[1] <= 2
            && (w.strict ==> (exists i :: 2 <= i < 18 && h[i] != 0) && ConfidenceInRange(WordAt(h, 18)))
  {
    hide LittleEndian, FromLittleEndian, CleanFields;
    var h := HeaderOf(t);
    if w.strict {
      if |t| < 22 {
        assert h[17] != 0;
      } else {
        var i :| 6 <= i < 22 && t[i] != 0;
        assert h[i - 4] != 0;
      }
      if |t| < 30 {
        assert h[25] == 0;
        SmallWord(h[18..26]);
      } else {
        assert h[18..26] == t[22..30];
      }
    }
  }

  /** A record built from a clean header and permitted fields is one the writer writes. */
  lemma PartsAreWritten(h: seq<byte>, fs: seq<Text>, w: Writer)
    requires |h| == HEADER_BYTES && h[0] <= 5 && h[1] <= 2 && |fs| == 4 && Within(fs, w)
    requires w.strict ==> (exists i :: 2 <= i < 18 && h[i] != 0) && ConfidenceInRange(WordAt(h, 18))
    ensures Writes(w, FromParts(h, fs))
  {
    hide LittleEndian, FromLittleEndian, ConfidenceInRange;
    HeaderSound(h, fs);
    if w.strict {
      assert fs[0] in fs && fs[1] in fs && fs[2] in fs && fs[3] in fs;
      NonZeroWords(h);
    }
  }

  lemma NonZeroWords(h: seq<byte>)
    requires |h| == HEADER_BYTES && exists i :: 2 <= i < 18 && h[i] != 0
    ensures WordAt(h, 2) != 0 || WordAt(h, 10) != 0
  {
    hide LittleEndian, FromLittleEndian;
    var i :| 2 <= i < 18 && h[i] != 0;
    EightBytesRoundTrip(h[2..10]);
    EightBytesRoundTrip(h[10..18]);
    ZeroSpelling();
    if i < 10 {
      assert h[2..10][i - 2] != 0;
    } else {
      assert h[10..18][i - 10] != 0;
    }
  }

  /** Clean bytes begin the encoding of a record that the writer writes. */
  lemma TailCompletes(t: seq<byte>, w: Writer) returns (e: Evidence)
    requires ValidWriter(w) && CleanTail(t, w)
    ensures Writes(w, e) && |t| < |Encode(e)| && Encode(e)[..|t|] == t
  {
    var s := if |t| >= 30 then t[30..] else [];
    NothingIsClean(w);
    var h := HeaderOf(t);
    HeaderOfIsClean(t, w);
    hide LittleEndian, Encode, EncodeFields, EncodeHeader, CleanFields, Writes, Completion, Within, FromParts, HeaderOf, Fields;
    var fs := Completion(s, 4, w);
    CompletionExtends(s, 4, w);
    e := FromParts(h, fs);
    PartsAreWritten(h, fs, w);
    HeaderSound(h, fs);
    EncodeParts(e);
    PartsAgree(Encode(e), t, LittleEndian(MAGIC, 4), h, EncodeFields(fs));
  }

  /** A byte string begins with `t` when its three parts do. */
  lemma PartsAgree(x: seq<byte>, t: seq<byte>, m: seq<byte>, h: seq<byte>, f: seq<byte>)
    requires |m| == 4 && |h| == HEADER_BYTES && x == m + (h + f)
    requires forall i :: 0 <= i < 4 && i < |t| ==> t[i] == m[i]
    requires forall i :: 4 <= i < |t| && i < 30 ==> h[i - 4] == t[i]
    requires 0 < |f| && (|t| >= 30 ==> |t| - 30 < |f| && f[..|t| - 30] == t[30..])
    ensures |t| < |x| && x[..|t|] == t
  {
    forall i | 0 <= i < |t|
      ensures x[i] == t[i]
    {
      if i >= 30 {
        assert f[i - 30] == t[30..][i - 30];
      }
    }
  }

  lemma NothingIsClean(w: Writer)
    requires ValidWriter(w)
    ensures CleanFields([], 4, w)
  {
    assert Pow256(0) == 1;
  }

  /**
   Bytes are what a crash leaves of a record the writer writes exactly when they are clean, which is
   decided by looking at them.
   */
  lemma RemainsIff(t: seq<byte>, w: Writer)
    requires ValidWriter(w)
    ensures Remains(t, w) <==> CleanTail(t, w)
  {
    hide Encode, CleanTail, Writes;
    if Remains(t, w) {
      var e: Evidence, n: nat :| Writes(w, e) && n < |Encode(e)| && t == Encode(e)[..n];
      RemainsAreClean(e, n, w);
    }
    if CleanTail(t, w) {
      var e := TailCompletes(t, w);
    }
  }

  /** To the reader, the start of a record is never a whole record, and that of a readable one is torn. */
  lemma RemainsAreNotParsed(e: Evidence, n: nat)
    requires n < |Encode(e)|
    ensures !ReadRecord(Encode(e)[..n]).Parsed?
    ensures Readable(e) ==> ReadRecord(Encode(e)[..n]).Torn?
  {
    hide Encode, ReadRecord, Readable;
    var x, t := Encode(e), Encode(e)[..n];
    ReadRecordOfEncode(e, []);
    assert x + [] == x;
    if Readable(e) {
      ReadRecordOfPrefix(x, n);
    } else if ReadRecord(t).Parsed? {
      ReadRecordSound(t);
      var r := ReadRecord(t);
      assert x == Encode(r.value) + (r.rest + x[n..]);
      ReadRecordOfEncode(r.value, r.rest + x[n..]);
    }
  }

  /** The bytes of any readable record cut short are torn to the reader, and those are the clean ones. */
  lemma ReadableRemainsIff(t: seq<byte>)
    ensures Remains(t, READABLE) <==> CleanTail(t, READABLE)
    ensures CleanTail(t, READABLE) ==> ReadRecord(t).Torn?
  {
    hide Encode, CleanTail, ReadRecord;
    RemainsIff(t, READABLE);
    if Remains(t, READABLE) {
      var e: Evidence, n: nat :| Writes(READABLE, e) && n < |Encode(e)| && t == Encode(e)[..n];
      RemainsAreNotParsed(e, n);
    }
  }

  // ---------------------------------------------------------------- torn files

  /** The file is what a crash leaves: whole readable records, then the start of one more. */
  ghost predicate CrashedFile(s: seq<byte>, w: Writer) {
    exists es, t :: AllReadable(es) && Remains(t, w) && s == EncodeAll(es) + t
  }

  /**
   A file read as torn was left by a crash of the writer exactly when the bytes past its good end are
   clean. Otherwise they are bytes present but wrong, and the reader does not object to them.
   */
  lemma TornFileIsCrashedIff(s: seq<byte>, w: Writer)
    requires ValidWriter(w) && ScanBytes(s).status.TornTail?
    ensures CrashedFile(s, w) <==> CleanTail(s[ScanBytes(s).goodEnd..], w)
  {
    hide Encode, CleanTail, AllReadable, ScanBytes, Remains, ValidWriter;
    var r := ScanBytes(s);
    var tail := s[r.goodEnd..];
    ScanSound(s);
    assert s == EncodeAll(r.entries) + tail;
    RemainsIff(tail, w);
    if CrashedFile(s, w) {
      var es, t :| AllReadable(es) && Remains(t, w) && s == EncodeAll(es) + t;
      RemainsScan(t, w);
      ScanAfterRecords(es, t);
      assert s[|EncodeAll(es)|..] == t;
    }
  }

  lemma RemainsScan(t: seq<byte>, w: Writer)
    requires Remains(t, w)
    ensures ScanBytes(t).goodEnd == 0
  {
    hide Encode, ReadRecord, Writes;
    var e: Evidence, n: nat :| Writes(w, e) && n < |Encode(e)| && t == Encode(e)[..n];
    RemainsAreNotParsed(e, n);
  }

  /** A wrong tag right after the magic number reads as torn, though no crash of any writer leaves it. */
  lemma WrongTagIsTorn(kind: byte, w: Writer)
    requires kind > 5 && ValidWriter(w)
    ensures var t := LittleEndian(MAGIC, 4) + [kind];
            ScanBytes(t) == ScanResult([], 0, TornTail) && !Remains(t, w)
  {
    hide LittleEndian, FromLittleEndian, Remains;
    var t := LittleEndian(MAGIC, 4) + [kind];
    MagicRoundTrip();
    TakeOfJoin(LittleEndian(MAGIC, 4), [kind]);
    assert t[4] == kind;
    RemainsIff(t, w);
  }
}
