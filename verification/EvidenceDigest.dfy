/**
 The 128-bit identity digest of an evidence record: two FNV-1a style lanes over length-prefixed
 fields, used as the key of the dedup index.
 */
module EvidenceDigest {
  import opened Bytes
  import opened EvidenceCodec

  const WORD: nat := 0x1_0000_0000_0000_0000
  const FNV_PRIME: nat := 0x100000001b3
  /** The inverse of the FNV prime modulo 2^64. */
  const FNV_INVERSE: nat := 0xce965057aff6957b
  const HIGH_START: u64 := 0xcbf29ce484222325
  const LOW_START: u64 := 0x84222325cbf29ce4
  const LOW_STEP: nat := 0x9e3779b97f4a7c15

  datatype Digest = Digest(high: u64, low: u64)

  /** The part of a record that makes two records the same fact. */
  datatype Fact = Fact(
    kind: EvidenceKind, verification: Verification,
    source: Text, eventType: Text, subject: Text, payload: Text)

  function FactOf(e: Evidence): Fact {
    Fact(e.kind, e.verification, e.source, e.eventType, e.subject, e.payload)
  }

  /** Bitwise exclusive or. */
  function Xor(a: nat, b: nat): nat
    decreases a + b
  {
    if a == 0 && b == 0 then 0 else (a + b) % 2 + 2 * Xor(a / 2, b / 2)
  }

  function HighStep(state: u64, b: byte): u64 {
    XorFits(state, b);
    Xor(state, b) * FNV_PRIME % WORD
  }

  function LowStep(state: u64, b: byte): u64 {
    XorFits(state, b);
    (Xor(state, b) * FNV_PRIME + LOW_STEP) % WORD
  }

  function HighLane(state: u64, bytes: seq<byte>): u64
    decreases |bytes|
  {
    if bytes == [] then state else HighLane(HighStep(state, bytes[0]), bytes[1..])
  }

  function LowLane(state: u64, bytes: seq<byte>): u64
    decreases |bytes|
  {
    if bytes == [] then state else LowLane(LowStep(state, bytes[0]), bytes[1..])
  }

  /** One length-prefixed field of the mixed stream. */
  function Mixed(f: Text): seq<byte> {
    LittleEndian(|f|, 8) + f
  }

  function MixedAll(fs: seq<Text>): seq<byte> {
    if fs == [] then [] else Mixed(fs[0]) + MixedAll(fs[1..])
  }

  /** Everything the digest absorbs, in order. */
  function MixedFields(e: Evidence): (fs: seq<Text>)
    ensures |fs| == 5
  {
    [[KindTag(e.kind), VerificationTag(e.verification)], e.source, e.eventType, e.subject, e.payload]
  }

  function DigestStream(e: Evidence): seq<byte> {
    MixedAll(MixedFields(e))
  }

  function DigestOf(e: Evidence): Digest {
    Digest(HighLane(HIGH_START, DigestStream(e)), LowLane(LOW_START, DigestStream(e)))
  }

  // ---------------------------------------------------------------- each step is injective

  lemma HalfAndBit(bit: nat, half: nat)
    requires bit < 2
    ensures (bit + 2 * half) % 2 == bit && (bit + 2 * half) / 2 == half
  {
  }

  lemma XorUnfold(a: nat, b: nat)
    ensures Xor(a, b) == (a + b) % 2 + 2 * Xor(a / 2, b / 2)
  {
    if a == 0 && b == 0 {
      assert Xor(0, 0) == 0;
    }
  }

  lemma XorParts(a: nat, b: nat)
    ensures Xor(a, b) % 2 == (a + b) % 2
    ensures Xor(a, b) / 2 == Xor(a / 2, b / 2)
  {
    hide Xor;
    XorUnfold(a, b);
    Halve(Xor(a, b), (a + b) % 2, Xor(a / 2, b / 2));
  }

  lemma Halve(x: nat, bit: nat, half: nat)
    requires bit < 2 && x == bit + 2 * half
    ensures x % 2 == bit && x / 2 == half
  {
    HalfAndBit(bit, half);
  }

  lemma SameHalfSameBit(a: nat, b: nat, x: nat, y: nat)
    requires x % 2 == (a + b) % 2 && y % 2 == (x + b) % 2 && y / 2 == a / 2
    ensures y == a
  {
  }

  lemma {:induction false} XorCancels(a: nat, b: nat)
    ensures Xor(Xor(a, b), b) == a
    decreases a + b
  {
    if a != 0 || b != 0 {
      hide Xor;
      var x := Xor(a, b);
      XorCancels(a / 2, b / 2);
      XorParts(a, b);
      XorParts(x, b);
      SameHalfSameBit(a, b, x, Xor(x, b));
    } else {
      assert Xor(0, 0) == 0;
    }
  }

  lemma {:induction false} XorCommutes(a: nat, b: nat)
    ensures Xor(a, b) == Xor(b, a)
    decreases a + b
  {
    if a != 0 || b != 0 {
      XorCommutes(a / 2, b / 2);
    }
  }

  lemma {:induction false} XorBelow(a: nat, b: nat, bits: nat, bound: nat)
    requires bound == Pow2(bits) && a < bound && b < bound
    ensures Xor(a, b) < bound
    decreases bits
  {
    if bits > 0 {
      XorBelow(a / 2, b / 2, bits - 1, Pow2(bits - 1));
    }
  }

  function Pow2(n: nat): nat {
    if n == 0 then 1 else 2 * Pow2(n - 1)
  }

  lemma Pow2By8(n: nat)
    ensures Pow2(n + 8) == 256 * Pow2(n)
  {
    assert Pow2(n + 4) == 16 * Pow2(n) by {
      assert Pow2(n + 2) == 4 * Pow2(n);
      assert Pow2(n + 4) == 4 * Pow2(n + 2);
    }
    assert Pow2(n + 6) == 4 * Pow2(n + 4);
    assert Pow2(n + 8) == 4 * Pow2(n + 6);
  }

  lemma Pow2Word()
    ensures Pow2(64) == WORD
  {
    Pow2By8(0);
    Pow2By8(8);
    Pow2By8(16);
    Pow2By8(24);
    Pow2By8(32);
    Pow2By8(40);
    Pow2By8(48);
    Pow2By8(56);
  }

  lemma XorFits(state: u64, b: byte)
    ensures 0 <= Xor(state, b) < WORD
  {
    Pow2Word();
    XorBelow(state, b, 64, WORD);
  }

  /** Multiplying by the odd FNV prime loses nothing modulo 2^64. */
  lemma MultiplyIsInjective(x: u64, y: u64, c: nat)
    requires (x * FNV_PRIME + c) % WORD == (y * FNV_PRIME + c) % WORD
    ensures x == y
  {
    var p, q := (x * FNV_PRIME + c) / WORD, (y * FNV_PRIME + c) / WORD;
    assert (x - y) * FNV_PRIME == (p - q) * WORD;
    var k := (FNV_PRIME * FNV_INVERSE - 1) / WORD;
    assert FNV_PRIME * FNV_INVERSE == 1 + k * WORD;
    assert x - y == WORD * ((p - q) * FNV_INVERSE - k * (x - y));
  }

  /** Different states stay different, and different bytes make states differ, in both lanes. */
  lemma StepIsInjective(s: u64, t: u64, a: byte, b: byte)
    requires s == t || a == b
    requires HighStep(s, a) == HighStep(t, b) || LowStep(s, a) == LowStep(t, b)
    ensures s == t && a == b
  {
    XorFits(s, a);
    XorFits(t, b);
    var x, y := Xor(s, a), Xor(t, b);
    if HighStep(s, a) == HighStep(t, b) {
      MultiplyIsInjective(x, y, 0);
    } else {
      MultiplyIsInjective(x, y, LOW_STEP);
    }
    XorCancels(s, a);
    XorCancels(t, b);
    XorCommutes(s, a);
    XorCommutes(t, b);
    XorCancels(a, s);
    XorCancels(b, t);
  }

  lemma {:induction false} LanesKeepDifference(s: u64, t: u64, bytes: seq<byte>)
    requires s != t
    ensures HighLane(s, bytes) != HighLane(t, bytes)
    ensures LowLane(s, bytes) != LowLane(t, bytes)
    decreases |bytes|
  {
    if bytes != [] {
      var b := bytes[0];
      if HighStep(s, b) == HighStep(t, b) || LowStep(s, b) == LowStep(t, b) {
        StepIsInjective(s, t, b, b);
        assert false;
      }
      LanesKeepDifference(HighStep(s, b), HighStep(t, b), bytes[1..]);
      LanesKeepDifference(LowStep(s, b), LowStep(t, b), bytes[1..]);
    }
  }

  /** Streams that differ in exactly one byte end in different states, in both lanes. */
  lemma {:induction false} OneByteSeparatesLanes(s: u64, t: u64, a: seq<byte>, b: seq<byte>, i: nat)
    requires |a| == |b| && i < |a| && a[i] != b[i]
    requires forall j :: 0 <= j < |a| && j != i ==> a[j] == b[j]
    ensures HighLane(s, a) != HighLane(s, b)
    ensures LowLane(t, a) != LowLane(t, b)
    decreases |a|
  {
    if i == 0 {
      assert a[1..] == b[1..];
      if HighStep(s, a[0]) == HighStep(s, b[0]) {
        StepIsInjective(s, s, a[0], b[0]);
        assert false;
      }
      if LowStep(t, a[0]) == LowStep(t, b[0]) {
        StepIsInjective(t, t, a[0], b[0]);
        assert false;
      }
      LanesKeepDifference(HighStep(s, a[0]), HighStep(s, b[0]), a[1..]);
      LanesKeepDifference(LowStep(t, a[0]), LowStep(t, b[0]), a[1..]);
    } else {
      OneByteSeparatesLanes(HighStep(s, a[0]), LowStep(t, a[0]), a[1..], b[1..], i - 1);
    }
  }

  // ---------------------------------------------------------------- the stream determines the fact

  lemma {:induction false} MixedIsInjective(fs: seq<Text>, gs: seq<Text>)
    requires |fs| == |gs| && MixedAll(fs) == MixedAll(gs)
    ensures fs == gs
  {
    hide LittleEndian;
    if fs != [] {
      var a, b := LittleEndian(|fs[0]|, 8), LittleEndian(|gs[0]|, 8);
      var x, y := MixedAll(fs[1..]), MixedAll(gs[1..]);
      assert MixedAll(fs) == a + (fs[0] + x) && MixedAll(gs) == b + (gs[0] + y);
      SamePrefix(a, fs[0] + x, b, gs[0] + y);
      WordRoundTrip(|fs[0]|);
      WordRoundTrip(|gs[0]|);
      SamePrefix(fs[0], x, gs[0], y);
      MixedIsInjective(fs[1..], gs[1..]);
      assert fs == [fs[0]] + fs[1..] && gs == [gs[0]] + gs[1..];
    }
  }

  lemma SamePrefix(a: seq<byte>, x: seq<byte>, b: seq<byte>, y: seq<byte>)
    requires |a| == |b| && a + x == b + y
    ensures a == b && x == y
  {
    assert (a + x)[..|a|] == a && (b + y)[..|b|] == b;
    assert (a + x)[|a|..] == x && (b + y)[|b|..] == y;
  }

  /** The digest reads two records alike, byte for byte, exactly when they state the same fact. */
  lemma DigestStreamIsInjective(e: Evidence, f: Evidence)
    ensures DigestStream(e) == DigestStream(f) <==> FactOf(e) == FactOf(f)
  {
    if DigestStream(e) == DigestStream(f) {
      hide MixedAll;
      MixedIsInjective(MixedFields(e), MixedFields(f));
      var a, b := MixedFields(e), MixedFields(f);
      assert a[0][0] == b[0][0] && a[0][1] == b[0][1] && a[1] == b[1] && a[2] == b[2] && a[3] == b[3] && a[4] == b[4];
      TagRoundTrip(e);
      TagRoundTrip(f);
    }
  }

  ghost predicate OneByteApart(a: seq<byte>, b: seq<byte>) {
    && |a| == |b|
    && exists i :: 0 <= i < |a| && DifferOnlyAt(a, b, i)
  }

  predicate DifferOnlyAt(a: seq<byte>, b: seq<byte>, i: nat)
    requires |a| == |b| && i < |a|
  {
    a[i] != b[i] && forall j :: 0 <= j < |a| && j != i ==> a[j] == b[j]
  }

  /** The records differ in one byte of one field and nowhere else. */
  ghost predicate OneFieldByteApart(fs: seq<Text>, gs: seq<Text>) {
    && |fs| == |gs|
    && exists k :: 0 <= k < |fs| && OneByteApart(fs[k], gs[k]) && fs[..k] == gs[..k] && fs[k + 1..] == gs[k + 1..]
  }

  lemma ApartInContext(x: seq<byte>, a: seq<byte>, b: seq<byte>, y: seq<byte>)
    requires OneByteApart(a, b)
    ensures OneByteApart(x + a + y, x + b + y)
  {
    var i :| 0 <= i < |a| && DifferOnlyAt(a, b, i);
    assert DifferOnlyAt(x + a + y, x + b + y, |x| + i);
  }

  lemma {:induction false} MixedKeepsApart(fs: seq<Text>, gs: seq<Text>)
    requires OneFieldByteApart(fs, gs)
    ensures OneByteApart(MixedAll(fs), MixedAll(gs))
  {
    hide LittleEndian;
    var k :| 0 <= k < |fs| && OneByteApart(fs[k], gs[k]) && fs[..k] == gs[..k] && fs[k + 1..] == gs[k + 1..];
    var f, g := Mixed(fs[0]), Mixed(gs[0]);
    var x, y := MixedAll(fs[1..]), MixedAll(gs[1..]);
    if k == 0 {
      ApartInContext(LittleEndian(|fs[0]|, 8), fs[0], gs[0], x);
    } else {
      assert fs[..k][0] == gs[..k][0] && fs[1..][..k - 1] == fs[..k][1..] && gs[1..][..k - 1] == gs[..k][1..];
      assert fs[1..][k - 1] == fs[k] && gs[1..][k - 1] == gs[k];
      assert fs[1..][k..] == fs[k + 1..] && gs[1..][k..] == gs[k + 1..];
      MixedKeepsApart(fs[1..], gs[1..]);
      ApartInContext(f, x, y, []);
      assert f + x + [] == f + x && f + y + [] == f + y;
    }
  }

  /** Two records of equal field lengths that differ in exactly one byte never share a digest: both lanes differ. */
  lemma OneByteSeparatesDigests(e: Evidence, f: Evidence)
    requires OneFieldByteApart(MixedFields(e), MixedFields(f))
    ensures DigestOf(e).high != DigestOf(f).high && DigestOf(e).low != DigestOf(f).low
  {
    hide MixedFields, MixedAll;
    MixedKeepsApart(MixedFields(e), MixedFields(f));
    var a, b := DigestStream(e), DigestStream(f);
    var i :| 0 <= i < |a| && DifferOnlyAt(a, b, i);
    OneByteSeparatesLanes(HIGH_START, LOW_START, a, b, i);
  }
}
