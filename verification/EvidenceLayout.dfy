/** The byte layout of a stored record, the bytes its digest absorbs, and the digest's constants. */
module EvidenceLayout {
  import opened Bytes
  import opened EvidenceCodec
  import opened EvidenceDigest

  /** The field's length as a 64-bit little-endian word, then its bytes, at place `i`. */
  predicate FieldAt(s: seq<byte>, i: nat, f: Text) {
    i + 8 + |f| <= |s| && FromLittleEndian(s[i..i + 8]) == |f| && s[i + 8..i + 8 + |f|] == f
  }

  /** The numbers that stand for the enumerations. */
  lemma Tags()
    ensures KindTag(Identity) == 0 && KindTag(Repository) == 1 && KindTag(Record) == 2
    ensures KindTag(Lexicon) == 3 && KindTag(Sync) == 4 && KindTag(Authorization) == 5
    ensures VerificationTag(Verified) == 0 && VerificationTag(Unverified) == 1 && VerificationTag(Rejected) == 2
  {
  }

  lemma MagicBytes()
    ensures LittleEndian(MAGIC, 4) == [0x45, 0x50, 0x54, 0x41]
  {
    assert LittleEndian(0x41, 1) == [0x41];
    assert LittleEndian(0x4154, 2) == [0x54] + [0x41];
    assert LittleEndian(0x415450, 3) == [0x50] + ([0x54] + [0x41]);
    assert LittleEndian(MAGIC, 4) == [0x45] + LittleEndian(0x415450, 3);
  }

  /**
   Where everything of a record is stored: the letters EPTA, the two tags, the sequence, the time and
   the confidence as little-endian words, and then the source, event type, subject and payload, each
   after its length; nothing else.
   */
  lemma RecordLayout(e: Evidence)
    ensures var s := Encode(e);
      var t := 38 + |e.source|; var u := t + 8 + |e.eventType|; var v := u + 8 + |e.subject|;
      && |s| == v + 8 + |e.payload|
      && s[..4] == [0x45, 0x50, 0x54, 0x41]
      && s[4] == KindTag(e.kind) && s[5] == VerificationTag(e.verification)
      && FromLittleEndian(s[6..14]) == e.sequence
      && FromLittleEndian(s[14..22]) == e.observedAt
      && FromLittleEndian(s[22..30]) == e.confidence
      && FieldAt(s, 30, e.source) && FieldAt(s, t, e.eventType) && FieldAt(s, u, e.subject) && FieldAt(s, v, e.payload)
  {
    hide LittleEndian, FromLittleEndian, EncodeFields, KindTag, VerificationTag;
    MagicBytes();
    WordRoundTrip(e.sequence);
    WordRoundTrip(e.observedAt);
    WordRoundTrip(e.confidence);
    var s, h := Encode(e), EncodeHeader(e);
    assert s[..4] == LittleEndian(MAGIC, 4);
    assert s[4..30] == h;
    assert s[6..14] == h[2..10] == LittleEndian(e.sequence, 8);
    assert s[14..22] == h[10..18] == LittleEndian(e.observedAt, 8);
    assert s[22..30] == h[18..26] == LittleEndian(e.confidence, 8);
    FourFields(e.source, e.eventType, e.subject, e.payload);
    assert s[30..] == EncodeFields(Fields(e));
    FieldsFollow(s, e.source, e.eventType, e.subject, e.payload);
  }

  lemma FourFields(a: Text, b: Text, c: Text, d: Text)
    ensures EncodeFields([a, b, c, d]) == EncodeField(a) + (EncodeField(b) + (EncodeField(c) + EncodeField(d)))
  {
    hide EncodeField;
    var x, y, z := [b, c, d], [c, d], [d];
    assert [a, b, c, d][1..] == x && x[1..] == y && y[1..] == z && z[1..] == [];
    assert EncodeFields(z) == EncodeField(d) + [] == EncodeField(d);
    assert EncodeFields(y) == EncodeField(c) + EncodeFields(z);
    assert EncodeFields(x) == EncodeField(b) + EncodeFields(y);
  }

  lemma FieldsFollow(s: seq<byte>, a: Text, b: Text, c: Text, d: Text)
    requires |s| >= 30
    requires s[30..] == EncodeField(a) + (EncodeField(b) + (EncodeField(c) + EncodeField(d)))
    ensures var t := 38 + |a|; var u := t + 8 + |b|; var v := u + 8 + |c|;
      && |s| == v + 8 + |d|
      && FieldAt(s, 30, a) && FieldAt(s, t, b) && FieldAt(s, u, c) && FieldAt(s, v, d)
  {
    hide EncodeField, FieldAt;
    FieldStarts(s, 30, a, EncodeField(b) + (EncodeField(c) + EncodeField(d)));
    FieldStarts(s, 38 + |a|, b, EncodeField(c) + EncodeField(d));
    FieldStarts(s, 46 + |a| + |b|, c, EncodeField(d));
    assert EncodeField(d) == EncodeField(d) + [];
    FieldStarts(s, 54 + |a| + |b| + |c|, d, []);
  }

  lemma FieldStarts(s: seq<byte>, i: nat, f: Text, rest: seq<byte>)
    requires i <= |s| && s[i..] == EncodeField(f) + rest
    ensures FieldAt(s, i, f) && i + 8 + |f| <= |s| && s[i + 8 + |f|..] == rest
  {
    hide LittleEndian, FromLittleEndian;
    WordRoundTrip(|f|);
    var t := s[i..];
    assert s[i..i + 8] == t[..8] == LittleEndian(|f|, 8);
    assert s[i + 8..i + 8 + |f|] == t[8..8 + |f|] == f;
    assert s[i + 8 + |f|..] == t[8 + |f|..];
  }

  /** The digest absorbs the two tags and the four texts, each after its length, into two lanes. */
  lemma DigestIs(e: Evidence)
    ensures var tags := [KindTag(e.kind), VerificationTag(e.verification)];
      var s := Mixed(tags) + (Mixed(e.source) + (Mixed(e.eventType) + (Mixed(e.subject) + Mixed(e.payload))));
      DigestOf(e) == Digest(HighLane(0xcbf29ce484222325, s), LowLane(0x84222325cbf29ce4, s))
  {
    hide Mixed, HighLane, LowLane, KindTag, VerificationTag;
    var tags := [KindTag(e.kind), VerificationTag(e.verification)];
    var v, w, x, y := [e.source, e.eventType, e.subject, e.payload], [e.eventType, e.subject, e.payload],
                      [e.subject, e.payload], [e.payload];
    assert MixedFields(e)[1..] == v && v[1..] == w && w[1..] == x && x[1..] == y && y[1..] == [];
    assert MixedAll(y) == Mixed(e.payload) + [] == Mixed(e.payload);
    assert MixedAll(x) == Mixed(e.subject) + MixedAll(y);
    assert MixedAll(w) == Mixed(e.eventType) + MixedAll(x);
    assert MixedAll(v) == Mixed(e.source) + MixedAll(w);
  }

  lemma {:induction false} XorWithZero(a: nat)
    ensures Xor(a, 0) == a
  {
    if a > 0 {
      XorWithZero(a / 2);
    }
  }

  /** A low part is mixed without touching the bits above it. */
  lemma {:induction false} XorIsLocal(q: nat, r: nat, b: nat, bits: nat)
    requires r < Pow2(bits) && b < Pow2(bits)
    ensures Xor(Pow2(bits) * q + r, b) == Pow2(bits) * q + Xor(r, b)
    decreases bits
  {
    hide Xor;
    XorWithZero(q);
    XorWithZero(0);
    if bits > 0 {
      XorIsLocal(q, r / 2, b / 2, bits - 1);
      XorShifted(Pow2(bits - 1) * q, r, b);
      assert Pow2(bits) * q == 2 * (Pow2(bits - 1) * q);
    }
  }

  lemma XorShifted(p: nat, r: nat, b: nat)
    requires Xor(p + r / 2, b / 2) == p + Xor(r / 2, b / 2)
    ensures Xor(2 * p + r, b) == 2 * p + Xor(r, b)
  {
    hide Xor;
    XorUnfold(2 * p + r, b);
    XorUnfold(r, b);
    assert (2 * p + r) / 2 == p + r / 2;
  }

  lemma HighLetter()
    ensures Xor(0x25, 0x61) == 0x44
  {
    hide Xor;
    XorWithZero(0);
    XorUnfold(0, 1);
    XorUnfold(1, 3);
    XorUnfold(2, 6);
    XorUnfold(4, 12);
    XorUnfold(9, 24);
    XorUnfold(18, 48);
    XorUnfold(0x25, 0x61);
  }

  lemma LowLetter()
    ensures Xor(0xe4, 0x61) == 0x85
  {
    hide Xor;
    XorWithZero(1);
    XorUnfold(3, 1);
    XorUnfold(7, 3);
    XorUnfold(14, 6);
    XorUnfold(28, 12);
    XorUnfold(57, 24);
    XorUnfold(114, 48);
    XorUnfold(0xe4, 0x61);
  }

  /** The published FNV-1a value of the letter a, and what the other lane makes of it. */
  lemma LaneVectors()
    ensures HighLane(0xcbf29ce484222325, [0x61]) == 0xaf63dc4c8601ec8c
    ensures LowLane(0x84222325cbf29ce4, [0x61]) == 0x16d5b7f30c8a7214
  {
    hide Xor;
    HighLetter();
    LowLetter();
    assert Pow2(8) == 256;
    XorIsLocal(0xcbf29ce4842223, 0x25, 0x61, 8);
    XorIsLocal(0x84222325cbf29c, 0xe4, 0x61, 8);
    assert [0x61][1..] == [];
  }
}
