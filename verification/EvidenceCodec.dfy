/**
 The on-disk form of the protocol evidence ledger: the writer's record encoding and the reader
 that walks a file record by record. A file that ends before the reader can object is torn, which
 is recoverable; bytes that it finds wrong are corruption, which is not.
 */
module EvidenceCodec {
  import opened Bytes

  const MAGIC: nat := 0x41545045
  const FIELD_LIMIT: nat := 16 * 1024 * 1024
  const HEADER_BYTES: nat := 26

  /** A string held in memory: its size is itself a 64-bit word. */
  type Text = s: seq<byte> | |s| < 0x1_0000_0000_0000_0000

  datatype EvidenceKind = Identity | Repository | Record | Lexicon | Sync | Authorization

  datatype Verification = Verified | Unverified | Rejected

  /** `confidence` is the bit pattern of the stored double. */
  datatype Evidence = Evidence(
    kind: EvidenceKind, verification: Verification,
    source: Text, eventType: Text, subject: Text, payload: Text,
    sequence: u64, observedAt: u64, confidence: u64)

  function KindTag(k: EvidenceKind): byte {
    match k
    case Identity => 0
    case Repository => 1
    case Record => 2
    case Lexicon => 3
    case Sync => 4
    case Authorization => 5
  }

  function KindOf(tag: byte): EvidenceKind
    requires tag <= 5
  {
    match tag
    case 0 => Identity
    case 1 => Repository
    case 2 => Record
    case 3 => Lexicon
    case 4 => Sync
    case _ => Authorization
  }

  function VerificationTag(v: Verification): byte {
    match v
    case Verified => 0
    case Unverified => 1
    case Rejected => 2
  }

  function VerificationOf(tag: byte): Verification
    requires tag <= 2
  {
    match tag
    case 0 => Verified
    case 1 => Unverified
    case _ => Rejected
  }

  // ---------------------------------------------------------------- writer

  function EncodeField(f: Text): seq<byte> {
    LittleEndian(|f|, 8) + f
  }

  function EncodeHeader(e: Evidence): (s: seq<byte>)
    ensures |s| == HEADER_BYTES
  {
    [KindTag(e.kind), VerificationTag(e.verification)] +
    LittleEndian(e.sequence, 8) + LittleEndian(e.observedAt, 8) + LittleEndian(e.confidence, 8)
  }

  function EncodeFields(fs: seq<Text>): seq<byte> {
    if fs == [] then [] else EncodeField(fs[0]) + EncodeFields(fs[1..])
  }

  function Fields(e: Evidence): seq<Text> {
    [e.source, e.eventType, e.subject, e.payload]
  }

  /** The bytes one append writes. */
  function Encode(e: Evidence): (s: seq<byte>)
    ensures |s| > 0
  {
    LittleEndian(MAGIC, 4) + (EncodeHeader(e) + EncodeFields(Fields(e)))
  }

  function EncodeAll(es: seq<Evidence>): seq<byte> {
    if es == [] then [] else Encode(es[0]) + EncodeAll(es[1..])
  }

  /** The writer has no size cap; the reader refuses longer fields. */
  predicate Readable(e: Evidence) {
    Short(Fields(e))
  }

  predicate Short(fs: seq<Text>) {
    forall f :: f in fs ==> |f| <= FIELD_LIMIT
  }

  predicate AllReadable(es: seq<Evidence>) {
    forall e :: e in es ==> Readable(e)
  }

  // ---------------------------------------------------------------- reader

  /** The result of reading one thing from the front of a byte string. */
  datatype Parse<+T> = Parsed(value: T, rest: seq<byte>) | Torn | Corrupt {
    predicate IsFailure() { !Parsed? }

    function PropagateFailure<U>(): Parse<U>
      requires IsFailure()
    {
      if Torn? then Torn else Corrupt
    }

    function Extract(): (T, seq<byte>)
      requires Parsed?
    {
      (value, rest)
    }
  }

  function Take(s: seq<byte>, n: nat): (r: Parse<seq<byte>>)
    ensures r.Parsed? ==> |r.rest| == |s| - n
  {
    if |s| < n then Torn else Parsed(s[..n], s[n..])
  }

  function ReadField(s: seq<byte>): (r: Parse<Text>)
    ensures r.Parsed? ==> |r.rest| < |s|
  {
    var (prefix, afterPrefix) :- Take(s, 8);
    if FromLittleEndian(prefix) > FIELD_LIMIT then
      Corrupt
    else
      var (text, rest) :- Take(afterPrefix, FromLittleEndian(prefix));
      Parsed(text, rest)
  }

  /** Consecutive fields. */
  function ReadFields(s: seq<byte>, n: nat): (r: Parse<seq<Text>>)
    ensures r.Parsed? ==> |r.rest| <= |s| && |r.value| == n
  {
    if n == 0 then
      Parsed([], s)
    else
      var (first, afterFirst) :- ReadField(s);
      var (others, rest) :- ReadFields(afterFirst, n - 1);
      Parsed([first] + others, rest)
  }

  function WordAt(h: seq<byte>, i: nat): u64
    requires i + 8 <= |h|
  {
    EightBytesRoundTrip(h[i..i + 8]);
    FromLittleEndian(h[i..i + 8])
  }

  function FromParts(h: seq<byte>, fs: seq<Text>): Evidence
    requires |h| == HEADER_BYTES && h[0] <= 5 && h[1] <= 2 && |fs| == 4
  {
    Evidence(KindOf(h[0]), VerificationOf(h[1]), fs[0], fs[1], fs[2], fs[3],
             WordAt(h, 2), WordAt(h, 10), WordAt(h, 18))
  }

  function ReadRecord(s: seq<byte>): (r: Parse<Evidence>)
    ensures r.Parsed? ==> |r.rest| < |s|
  {
    var (magic, afterMagic) :- Take(s, 4);
    if FromLittleEndian(magic) != MAGIC then
      Corrupt
    else
      var (h, afterHeader) :- Take(afterMagic, HEADER_BYTES);
      if h[0] > 5 || h[1] > 2 then
        Corrupt
      else
        var (fs, rest) :- ReadFields(afterHeader, 4);
        Parsed(FromParts(h, fs), rest)
  }

  datatype FileStatus = Whole | TornTail | Broken

  /** What a scan hands to its visitor, the end of the last complete record, and how it ended. */
  datatype ScanResult = ScanResult(entries: seq<Evidence>, goodEnd: nat, status: FileStatus)

  function ScanBytes(s: seq<byte>): (r: ScanResult)
    ensures r.goodEnd <= |s|
    ensures r.status.Whole? ==> r.goodEnd == |s|
    ensures r.status.TornTail? ==> r.goodEnd < |s|
    decreases |s|
  {
    if s == [] then
      ScanResult([], 0, Whole)
    else
      match ReadRecord(s)
      case Torn => ScanResult([], 0, TornTail)
      case Corrupt => ScanResult([], 0, Broken)
      case Parsed(e, rest) =>
        var r := ScanBytes(rest);
        ScanResult([e] + r.entries, |s| - |rest| + r.goodEnd, r.status)
  }

  // ---------------------------------------------------------------- one record

  lemma TakeOfJoin(a: seq<byte>, t: seq<byte>)
    ensures Take(a + t, |a|) == Parsed(a, t)
  {
    assert (a + t)[..|a|] == a;
    assert (a + t)[|a|..] == t;
  }

  /** The reader undoes the writer on a field within the limit and refuses any longer one. */
  lemma ReadFieldOfEncode(f: Text, t: seq<byte>)
    ensures ReadField(EncodeField(f) + t) ==
            if |f| <= FIELD_LIMIT then Parsed(f, t) else Corrupt
  {
    hide LittleEndian, FromLittleEndian;
    var prefix := LittleEndian(|f|, 8);
    WordRoundTrip(|f|);
    assert EncodeField(f) + t == prefix + (f + t);
    TakeOfJoin(prefix, f + t);
    TakeOfJoin(f, t);
  }

  /** A field read back was written by the field writer. */
  lemma ReadFieldSound(s: seq<byte>)
    requires ReadField(s).Parsed?
    ensures var r := ReadField(s); s == EncodeField(r.value) + r.rest && |r.value| <= FIELD_LIMIT
  {
    hide LittleEndian, FromLittleEndian;
    EightBytesRoundTrip(s[..8]);
    var size := FromLittleEndian(s[..8]);
    assert s == s[..8] + (s[8..][..size] + s[8..][size..]);
  }

  /** A field read from `s` is read alike from any prefix that still holds it, and is torn in a shorter one. */
  lemma ReadFieldOfPrefix(s: seq<byte>, p: nat)
    requires ReadField(s).Parsed? && p <= |s|
    ensures var r := ReadField(s); var used := |s| - |r.rest|;
            ReadField(s[..p]) == if p < used then Torn else Parsed(r.value, r.rest[..p - used])
  {
    hide LittleEndian, FromLittleEndian;
    if p >= 8 {
      assert s[..p][..8] == s[..8];
      var size := FromLittleEndian(s[..8]);
      assert s[..p][8..] == s[8..][..p - 8];
      if p - 8 >= size {
        assert s[8..][..p - 8][..size] == s[8..][..size];
        assert s[8..][..p - 8][size..] == s[8..][size..][..p - 8 - size];
      }
    }
  }

  lemma {:induction false} ReadFieldsOfEncode(fs: seq<Text>, t: seq<byte>)
    ensures ReadFields(EncodeFields(fs) + t, |fs|) == if Short(fs) then Parsed(fs, t) else Corrupt
  {
    hide ReadField, EncodeField;
    if fs == [] {
      assert EncodeFields(fs) + t == t;
    } else {
      var t' := EncodeFields(fs[1..]) + t;
      assert EncodeFields(fs) + t == EncodeField(fs[0]) + t';
      ReadFieldOfEncode(fs[0], t');
      ReadFieldsOfEncode(fs[1..], t);
      assert fs == [fs[0]] + fs[1..];
      assert Short(fs) <==> |fs[0]| <= FIELD_LIMIT && Short(fs[1..]);
    }
  }

  lemma {:induction false} ReadFieldsSound(s: seq<byte>, n: nat)
    requires ReadFields(s, n).Parsed?
    ensures var r := ReadFields(s, n); s == EncodeFields(r.value) + r.rest && Short(r.value)
    decreases n
  {
    hide ReadField, EncodeField, LittleEndian, FromLittleEndian;
    if n > 0 {
      ReadFieldSound(s);
      ReadFieldsSound(ReadField(s).rest, n - 1);
      var r := ReadFields(s, n);
      assert r.value[1..] == ReadFields(ReadField(s).rest, n - 1).value;
    }
  }

  lemma {:induction false} ReadFieldsOfPrefix(s: seq<byte>, n: nat, p: nat)
    requires ReadFields(s, n).Parsed? && p <= |s|
    ensures var r := ReadFields(s, n); var used := |s| - |r.rest|;
            ReadFields(s[..p], n) == if p < used then Torn else Parsed(r.value, r.rest[..p - used])
    decreases n
  {
    hide ReadField;
    if n > 0 {
      ReadFieldOfPrefix(s, p);
      var rest := ReadField(s).rest;
      if p >= |s| - |rest| {
        ReadFieldsOfPrefix(rest, n - 1, p - (|s| - |rest|));
      }
    }
  }

  lemma TagRoundTrip(e: Evidence)
    ensures KindTag(e.kind) <= 5 && KindOf(KindTag(e.kind)) == e.kind
    ensures VerificationTag(e.verification) <= 2 && VerificationOf(VerificationTag(e.verification)) == e.verification
  {
  }

  lemma TagSound(k: byte, v: byte)
    requires k <= 5 && v <= 2
    ensures KindTag(KindOf(k)) == k && VerificationTag(VerificationOf(v)) == v
  {
  }

  /** An encoded header reads back as the fields it was built from. */
  lemma HeaderRoundTrip(e: Evidence)
    ensures var h := EncodeHeader(e); h[0] <= 5 && h[1] <= 2 && FromParts(h, Fields(e)) == e
  {
    hide LittleEndian, FromLittleEndian, KindTag, KindOf, VerificationTag, VerificationOf;
    var h := EncodeHeader(e);
    var tags := [KindTag(e.kind), VerificationTag(e.verification)];
    var a, b, c := LittleEndian(e.sequence, 8), LittleEndian(e.observedAt, 8), LittleEndian(e.confidence, 8);
    TagRoundTrip(e);
    assert h == tags + (a + (b + c));
    assert h[2..] == a + (b + c);
    assert h[10..] == b + c;
    assert h[2..10] == a && h[10..18] == b && h[18..26] == c;
    WordRoundTrip(e.sequence);
    WordRoundTrip(e.observedAt);
    WordRoundTrip(e.confidence);
  }

  lemma HeaderSound(h: seq<byte>, fs: seq<Text>)
    requires |h| == HEADER_BYTES && h[0] <= 5 && h[1] <= 2 && |fs| == 4
    ensures EncodeHeader(FromParts(h, fs)) == h
    ensures Fields(FromParts(h, fs)) == fs
  {
    hide LittleEndian, FromLittleEndian, KindOf, KindTag, VerificationOf, VerificationTag;
    TagSound(h[0], h[1]);
    EightBytesRoundTrip(h[2..10]);
    EightBytesRoundTrip(h[10..18]);
    EightBytesRoundTrip(h[18..26]);
    assert h == [h[0], h[1]] + h[2..10] + h[10..18] + h[18..26];
  }

  lemma MagicRoundTrip()
    ensures FromLittleEndian(LittleEndian(MAGIC, 4)) == MAGIC
  {
    assert Pow256(4) == 0x1_0000_0000;
    LittleEndianRoundTrip(MAGIC, 4);
  }

  /**
   Decoding undoes encoding exactly for records whose fields are all within the reader's limit;
   any other record, once complete in the file, is corruption to the reader.
   */
  lemma ReadRecordOfEncode(e: Evidence, t: seq<byte>)
    ensures ReadRecord(Encode(e) + t) == if Readable(e) then Parsed(e, t) else Corrupt
  {
    hide LittleEndian, FromLittleEndian, ReadFields, EncodeFields, EncodeHeader, FromParts;
    var m, h, fs := LittleEndian(MAGIC, 4), EncodeHeader(e), Fields(e);
    assert Encode(e) + t == m + (h + (EncodeFields(fs) + t));
    TakeOfJoin(m, h + (EncodeFields(fs) + t));
    TakeOfJoin(h, EncodeFields(fs) + t);
    MagicRoundTrip();
    HeaderRoundTrip(e);
    ReadFieldsOfEncode(fs, t);
  }

  /** Every record the reader accepts is the encoding of the record it returns. */
  lemma ReadRecordSound(s: seq<byte>)
    requires ReadRecord(s).Parsed?
    ensures var r := ReadRecord(s); s == Encode(r.value) + r.rest && Readable(r.value)
  {
    hide LittleEndian, FromLittleEndian, ReadFields, EncodeFields, EncodeHeader, FromParts;
    var r := ReadRecord(s);
    var h, body := s[4..][..HEADER_BYTES], s[4..][HEADER_BYTES..];
    var fs := ReadFields(body, 4).value;
    FromLittleEndianRoundTrip(s[..4]);
    ReadFieldsSound(body, 4);
    HeaderSound(h, fs);
    assert s == s[..4] + (h + body);
  }

  /** Cutting the file inside a record leaves a torn record, never a corrupt one; cutting later changes nothing. */
  lemma ReadRecordOfPrefix(s: seq<byte>, p: nat)
    requires ReadRecord(s).Parsed? && p <= |s|
    ensures var r := ReadRecord(s); var used := |s| - |r.rest|;
            ReadRecord(s[..p]) == if p < used then Torn else Parsed(r.value, r.rest[..p - used])
  {
    hide LittleEndian, FromLittleEndian, ReadFields, EncodeFields, EncodeHeader, FromParts;
    if p >= 4 {
      var s', p' := s[4..], p - 4;
      assert s[..p][..4] == s[..4];
      assert s[..p][4..] == s'[..p'];
      if p' >= HEADER_BYTES {
        assert s'[..p'][..HEADER_BYTES] == s'[..HEADER_BYTES];
        assert s'[..p'][HEADER_BYTES..] == s'[HEADER_BYTES..][..p' - HEADER_BYTES];
        ReadFieldsOfPrefix(s'[HEADER_BYTES..], 4, p' - HEADER_BYTES);
      }
    }
  }

  // ---------------------------------------------------------------- more bytes

  lemma FieldWithMore(s: seq<byte>, t: seq<byte>)
    ensures ReadField(s).Corrupt? ==> ReadField(s + t).Corrupt?
    ensures ReadField(s).Parsed? ==> ReadField(s + t) == Parsed(ReadField(s).value, ReadField(s).rest + t)
  {
    hide LittleEndian, FromLittleEndian;
    if ReadField(s).Parsed? {
      ReadFieldSound(s);
      var r := ReadField(s);
      assert s + t == EncodeField(r.value) + (r.rest + t);
      ReadFieldOfEncode(r.value, r.rest + t);
    } else if |s| >= 8 {
      assert (s + t)[..8] == s[..8];
    }
  }

  lemma {:induction false} FieldsWithMore(s: seq<byte>, n: nat, t: seq<byte>)
    requires ReadFields(s, n).Corrupt?
    ensures ReadFields(s + t, n).Corrupt?
    decreases n
  {
    hide ReadField;
    if n > 0 {
      FieldWithMore(s, t);
      if ReadField(s).Parsed? {
        FieldsWithMore(ReadField(s).rest, n - 1, t);
      }
    }
  }

  /** A corrupt record stays corrupt, and a whole one whole, whatever bytes follow. */
  lemma RecordWithMore(s: seq<byte>, t: seq<byte>)
    ensures ReadRecord(s).Corrupt? ==> ReadRecord(s + t).Corrupt?
    ensures ReadRecord(s).Parsed? ==> ReadRecord(s + t) == Parsed(ReadRecord(s).value, ReadRecord(s).rest + t)
  {
    hide LittleEndian, FromLittleEndian, ReadFields, Encode, FromParts;
    if ReadRecord(s).Parsed? {
      ReadRecordSound(s);
      var r := ReadRecord(s);
      assert s + t == Encode(r.value) + (r.rest + t);
      ReadRecordOfEncode(r.value, r.rest + t);
    } else if ReadRecord(s).Corrupt? {
      assert (s + t)[..4] == s[..4];
      if |s| >= 4 + HEADER_BYTES {
        assert (s + t)[4..][..HEADER_BYTES] == s[4..][..HEADER_BYTES];
        assert (s + t)[4..][HEADER_BYTES..] == s[4..][HEADER_BYTES..] + t;
        if ReadFields(s[4..][HEADER_BYTES..], 4).Corrupt? {
          FieldsWithMore(s[4..][HEADER_BYTES..], 4, t);
        }
      }
    }
  }

  // ---------------------------------------------------------------- whole files

  /** How many of the records fit wholly in the first `p` bytes of their concatenation. */
  function Complete(es: seq<Evidence>, p: nat): (k: nat)
    ensures k <= |es|
  {
    if es == [] || p < |Encode(es[0])| then 0 else 1 + Complete(es[1..], p - |Encode(es[0])|)
  }

  /** `Complete` counts exactly the records whose last byte lies within the cut. */
  lemma {:induction false} CompleteIsExact(es: seq<Evidence>, p: nat)
    requires p <= |EncodeAll(es)|
    ensures var k := Complete(es, p);
            |EncodeAll(es[..k])| <= p && (k < |es| ==> p < |EncodeAll(es[..k + 1])|)
  {
    hide Encode;
    if es != [] && p >= |Encode(es[0])| {
      CompleteIsExact(es[1..], p - |Encode(es[0])|);
      var k := Complete(es[1..], p - |Encode(es[0])|);
      assert es[..k + 1][1..] == es[1..][..k];
      if k + 1 < |es| {
        assert es[..k + 2][1..] == es[1..][..k + 1];
      }
    } else if es != [] {
      assert es[..1][1..] == [];
      assert EncodeAll(es[..1]) == Encode(es[0]) + [];
    }
  }

  lemma ScanStep(e: Evidence, t: seq<byte>)
    requires Readable(e)
    ensures var r := ScanBytes(t);
            ScanBytes(Encode(e) + t) == ScanResult([e] + r.entries, |Encode(e)| + r.goodEnd, r.status)
  {
    hide Encode, ReadRecord;
    ReadRecordOfEncode(e, t);
  }

  lemma ScanOfNothing()
    ensures ScanBytes([]) == ScanResult([], 0, Whole)
  {
  }

  lemma ScanTornStep(e: Evidence, p: nat)
    requires Readable(e) && p < |Encode(e)|
    ensures ScanBytes(Encode(e)[..p]) == ScanResult([], 0, if p > 0 then TornTail else Whole)
  {
    hide Encode, ReadRecord;
    ReadRecordOfEncode(e, []);
    assert Encode(e) + [] == Encode(e);
    ReadRecordOfPrefix(Encode(e), p);
  }

  /**
   Crash recovery. Cut the file of any readable records anywhere: the scan never reports
   corruption, returns exactly the records that fit wholly before the cut, ends at the last
   of them, and reports a torn tail exactly when bytes remain after it.
   */
  lemma {:induction false} ScanOfPrefix(es: seq<Evidence>, p: nat)
    requires AllReadable(es) && p <= |EncodeAll(es)|
    ensures var k := Complete(es, p);
            var end := |EncodeAll(es[..k])|;
            ScanBytes(EncodeAll(es)[..p]) == ScanResult(es[..k], end, if p > end then TornTail else Whole)
  {
    hide Encode, ScanBytes, Complete, AllReadable;
    if es == [] {
      ScanOfNothing();
      CompleteStep(es, p);
    } else {
      var q := p - |Encode(es[0])|;
      CompleteStep(es, p);
      CutStep(es, p);
      FirstReadable(es);
      if q >= 0 {
        var k := Complete(es[1..], q);
        ScanStep(es[0], EncodeAll(es[1..])[..q]);
        ScanOfPrefix(es[1..], q);
        TakeFirst(es, k);
      } else {
        ScanTornStep(es[0], p);
      }
    }
  }

  lemma CompleteStep(es: seq<Evidence>, p: nat)
    ensures Complete(es, p) ==
            if es == [] || p < |Encode(es[0])| then 0 else 1 + Complete(es[1..], p - |Encode(es[0])|)
  {
  }

  lemma FirstReadable(es: seq<Evidence>)
    requires AllReadable(es) && es != []
    ensures Readable(es[0]) && AllReadable(es[1..])
  {
  }

  /** A cut falls inside the first record or inside the others. */
  lemma CutStep(es: seq<Evidence>, p: nat)
    requires es != [] && p <= |EncodeAll(es)|
    ensures p < |Encode(es[0])| ==> EncodeAll(es)[..p] == Encode(es[0])[..p]
    ensures p >= |Encode(es[0])| ==>
              var q := p - |Encode(es[0])|;
              q <= |EncodeAll(es[1..])| && EncodeAll(es)[..p] == Encode(es[0]) + EncodeAll(es[1..])[..q]
  {
    hide Encode;
  }

  lemma TakeFirst(es: seq<Evidence>, k: nat)
    requires es != [] && k <= |es[1..]|
    ensures es[..k + 1] == [es[0]] + es[1..][..k]
    ensures |EncodeAll(es[..k + 1])| == |Encode(es[0])| + |EncodeAll(es[1..][..k])|
  {
    hide Encode;
    assert es[..k + 1] == [es[0]] + es[1..][..k];
    assert es[..k + 1][1..] == es[1..][..k];
  }

  lemma {:induction false} EncodeAllJoin(a: seq<Evidence>, b: seq<Evidence>)
    ensures EncodeAll(a + b) == EncodeAll(a) + EncodeAll(b)
    ensures b != [] ==> |EncodeAll(b)| > 0
  {
    hide Encode;
    if a == [] {
      assert a + b == b;
    } else {
      EncodeAllJoin(a[1..], b);
      assert (a + b)[1..] == a[1..] + b;
    }
  }

  /**
   The converse: whatever a scan returns, the bytes up to `goodEnd` are the encoding of exactly
   those records, and scanning the remaining tail reads no further record.
   */
  lemma {:induction false} ScanSound(s: seq<byte>)
    ensures var r := ScanBytes(s);
            && s[..r.goodEnd] == EncodeAll(r.entries)
            && AllReadable(r.entries)
            && ScanBytes(s[r.goodEnd..]) == ScanResult([], 0, r.status)
    decreases |s|
  {
    hide ReadRecord, Encode, Readable;
    if s != [] && ReadRecord(s).Parsed? {
      ReadRecordSound(s);
      var e, rest := ReadRecord(s).value, ReadRecord(s).rest;
      ScanSound(rest);
      PrefixGrows(e, rest, ScanBytes(rest).goodEnd, ScanBytes(rest).entries);
    } else {
      assert s[0..] == s;
    }
  }

  lemma PrefixGrows(e: Evidence, rest: seq<byte>, end: nat, es: seq<Evidence>)
    requires end <= |rest| && rest[..end] == EncodeAll(es) && Readable(e) && AllReadable(es)
    ensures var s, n := Encode(e) + rest, |Encode(e)| + end;
            s[..n] == EncodeAll([e] + es) && s[n..] == rest[end..] && AllReadable([e] + es)
  {
    hide Encode, Readable;
    assert ([e] + es)[1..] == es;
  }

  /** Scanning after a block of whole readable records continues with what follows them. */
  lemma {:induction false} ScanAfterRecords(es: seq<Evidence>, t: seq<byte>)
    requires AllReadable(es)
    ensures var r := ScanBytes(t);
            ScanBytes(EncodeAll(es) + t) == ScanResult(es + r.entries, |EncodeAll(es)| + r.goodEnd, r.status)
  {
    hide Encode, ScanBytes;
    var r := ScanBytes(t);
    if es == [] {
      assert EncodeAll(es) + t == t;
    } else {
      var others := EncodeAll(es[1..]) + t;
      assert EncodeAll(es) + t == Encode(es[0]) + others;
      ScanStep(es[0], others);
      ScanAfterRecords(es[1..], t);
      assert es + r.entries == [es[0]] + (es[1..] + r.entries);
    }
  }

  /** No bytes added at the end make a corrupt file readable again. */
  lemma {:induction false} BrokenStaysBroken(s: seq<byte>, t: seq<byte>)
    ensures ScanBytes(s).status.Broken? ==> ScanBytes(s + t).status.Broken?
    decreases |s|
  {
    hide ReadRecord;
    if s != [] {
      RecordWithMore(s, t);
      if ReadRecord(s).Parsed? {
        BrokenStaysBroken(ReadRecord(s).rest, t);
      }
    }
  }

  /** The full file reads back as the records it was written from. */
  lemma ScanRoundTrip(es: seq<Evidence>)
    requires AllReadable(es)
    ensures ScanBytes(EncodeAll(es)) == ScanResult(es, |EncodeAll(es)|, Whole)
  {
    ScanAfterRecords(es, []);
    assert EncodeAll(es) + [] == EncodeAll(es);
  }

  /**
   A record with a field over the reader's limit is written without complaint and makes every
   later scan fail: a file of readable records stays readable after one more append iff the
   appended record's fields are all within the limit.
   */
  lemma ReadableAfterAppendIff(es: seq<Evidence>, e: Evidence)
    requires AllReadable(es)
    ensures ScanBytes(EncodeAll(es) + Encode(e)).status != Broken <==> Readable(e)
  {
    ScanAfterRecords(es, Encode(e));
    ReadRecordOfEncode(e, []);
    assert Encode(e) + [] == Encode(e);
  }

  /** One such record: a payload one byte over the limit. */
  lemma OversizePayloadBreaksTheFile()
    ensures var e := Evidence(Sync, Verified, [1], [1], [1], seq(FIELD_LIMIT + 1, _ => 0), 1, 1, 0);
            ScanBytes(Encode(e)).status == Broken
  {
    var e := Evidence(Sync, Verified, [1], [1], [1], seq(FIELD_LIMIT + 1, _ => 0), 1, 1, 0);
    assert e.payload in Fields(e);
    ReadableAfterAppendIff([], e);
    assert EncodeAll([]) + Encode(e) == Encode(e);
  }

  /** Tails too short to hold what they would be checked against read as torn even when their bytes are wrong. */
  lemma ShortWrongTailIsTorn(es: seq<Evidence>, t: seq<byte>)
    requires AllReadable(es) && 0 < |t| < 4
    ensures ScanBytes(EncodeAll(es) + t) == ScanResult(es, |EncodeAll(es)|, TornTail)
  {
    ScanAfterRecords(es, t);
    assert es + [] == es;
  }

  // ---------------------------------------------------------------- the scanning loop

  /** The reader's loop: records are visited in order until the file ends, tears or proves corrupt. */
  method Scan(file: seq<byte>) returns (r: ScanResult)
    ensures r == ScanBytes(file)
  {
    var visited: seq<Evidence> := [];
    var goodEnd := 0;
    var rest := file;
    while rest != []
      invariant goodEnd + |rest| == |file|
      invariant var todo := ScanBytes(rest);
                ScanBytes(file) == ScanResult(visited + todo.entries, goodEnd + todo.goodEnd, todo.status)
      decreases |rest|
    {
      match ReadRecord(rest)
      case Torn =>
        return ScanResult(visited, goodEnd, TornTail);
      case Corrupt =>
        return ScanResult(visited, goodEnd, Broken);
      case Parsed(e, remaining) =>
        visited := visited + [e];
        goodEnd := |file| - |remaining|;
        rest := remaining;
    }
    return ScanResult(visited, goodEnd, Whole);
  }
}
