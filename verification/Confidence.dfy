/** The confidence test on bit patterns is the test of the IEEE 754 double that the bits encode. */
module Confidence {
  import opened Bytes
  import opened EvidenceCodec
  import opened EvidenceStore

  const FRACTIONS: nat := 0x10_0000_0000_0000

  function TwoTo(n: nat): (p: nat)
    ensures p > 0
  {
    if n == 0 then 1 else 2 * TwoTo(n - 1)
  }

  function Negative(bits: u64): bool {
    bits / 0x8000_0000_0000_0000 == 1
  }

  function Exponent(bits: u64): nat {
    bits / FRACTIONS % 2048
  }

  function Mantissa(bits: u64): nat {
    bits % FRACTIONS
  }

  predicate Finite(bits: u64) {
    Exponent(bits) != 2047
  }

  /** The magnitude in units of the smallest subnormal, 2 to the power -1074. */
  function Units(bits: u64): nat {
    if Exponent(bits) == 0 then Mantissa(bits) else (FRACTIONS + Mantissa(bits)) * TwoTo(Exponent(bits) - 1)
  }

  /** The value of a finite double. */
  function Value(bits: u64): real {
    var magnitude := Units(bits) as real / TwoTo(1074) as real;
    if Negative(bits) then -magnitude else magnitude
  }

  lemma {:induction false} TwoToGrows(a: nat, b: nat)
    requires a < b
    ensures 2 * TwoTo(a) <= TwoTo(b)
  {
    if a < b - 1 {
      TwoToGrows(a, b - 1);
    }
  }

  lemma {:induction false} TwoToAdds(a: nat, b: nat)
    ensures TwoTo(a + b) == TwoTo(a) * TwoTo(b)
  {
    if a > 0 {
      TwoToAdds(a - 1, b);
      assert TwoTo(a) * TwoTo(b) == 2 * (TwoTo(a - 1) * TwoTo(b));
    }
  }

  lemma OneInUnits()
    ensures TwoTo(1074) == FRACTIONS * TwoTo(1022)
  {
    hide TwoTo;
    MantissaIsFiftyTwoBits();
    TwoToAdds(52, 1022);
  }

  lemma MantissaIsFiftyTwoBits()
    ensures TwoTo(52) == FRACTIONS
  {
    hide TwoTo;
    Thirteen();
    TwoToAdds(13, 13);
    TwoToAdds(26, 26);
  }

  lemma Thirteen()
    ensures TwoTo(13) == 8192
  {
    assert TwoTo(5) == 32;
    assert TwoTo(9) == 512;
  }

  lemma Scaled(x: nat, y: nat, t: nat)
    requires t > 0
    ensures x * t <= y * t <==> x <= y
  {
  }

  lemma ScaledApart(m: nat, t: nat, u: nat)
    requires m < FRACTIONS && 2 * t <= u
    ensures (FRACTIONS + m) * t <= FRACTIONS * u
    ensures u > 0 ==> (FRACTIONS + m) * u > FRACTIONS * t
  {
    assert (FRACTIONS + m) * t <= (FRACTIONS + FRACTIONS) * t;
    assert (FRACTIONS + FRACTIONS) * t == FRACTIONS * (2 * t);
    assert FRACTIONS * (2 * t) <= FRACTIONS * u;
    assert (FRACTIONS + m) * u >= FRACTIONS * u;
  }

  /** The magnitude is at most one exactly up to the exponent of one, and there without a fraction. */
  lemma AtMostOneIff(bits: u64)
    ensures Units(bits) <= TwoTo(1074) <==>
              Exponent(bits) < 1023 || (Exponent(bits) == 1023 && Mantissa(bits) == 0)
  {
    hide TwoTo, Exponent, Mantissa;
    MantissaBound(bits);
    OneInUnits();
    var e, m := Exponent(bits), Mantissa(bits);
    if e == 0 {
      Scaled(1, TwoTo(1022), FRACTIONS);
    } else if e < 1023 {
      TwoToGrows(e - 1, 1022);
      ScaledApart(m, TwoTo(e - 1), TwoTo(1022));
    } else if e == 1023 {
      Scaled(FRACTIONS + m, FRACTIONS, TwoTo(1022));
    } else {
      TwoToGrows(1022, e - 1);
      ScaledApart(m, TwoTo(1022), TwoTo(e - 1));
    }
  }

  lemma MantissaBound(bits: u64)
    ensures Mantissa(bits) < FRACTIONS
  {
  }

  lemma ZeroIff(bits: u64)
    ensures Units(bits) == 0 <==> Exponent(bits) == 0 && Mantissa(bits) == 0
  {
    hide TwoTo, Exponent, Mantissa;
    if Exponent(bits) > 0 {
      Scaled(FRACTIONS + Mantissa(bits), 0, TwoTo(Exponent(bits) - 1));
    }
  }

  /** The bit pattern is its sign, exponent and mantissa side by side. */
  lemma Fields(bits: u64)
    ensures bits == (if Negative(bits) then 0x8000_0000_0000_0000 else 0) + Exponent(bits) * FRACTIONS + Mantissa(bits)
    ensures Exponent(bits) < 2048 && Mantissa(bits) < FRACTIONS
  {
    var high := bits / FRACTIONS;
    assert bits / 0x8000_0000_0000_0000 == high / 2048;
  }

  lemma RatioIff(x: nat, y: nat)
    requires y > 0
    ensures 0.0 <= x as real / y as real
    ensures x as real / y as real <= 1.0 <==> x <= y
    ensures x as real / y as real == 0.0 <==> x == 0
  {
    var ratio := x as real / y as real;
    assert ratio * y as real == x as real;
  }

  /** A confidence is in range exactly when its double is finite and from 0 to 1. */
  lemma InRangeIff(bits: u64)
    ensures ConfidenceInRange(bits) <==> Finite(bits) && 0.0 <= Value(bits) <= 1.0
  {
    hide TwoTo, Units, Exponent, Mantissa, Negative;
    Fields(bits);
    AtMostOneIff(bits);
    ZeroIff(bits);
    RatioIff(Units(bits), TwoTo(1074));
  }

  /**
   A record is acceptable exactly when its four texts are non-empty, it has a sequence or a time, and
   its confidence is a finite number from 0 to 1.
   */
  lemma AcceptableIff(e: Evidence)
    ensures Acceptable(e) <==>
              && |e.source| > 0 && |e.eventType| > 0 && |e.subject| > 0 && |e.payload| > 0
              && (e.sequence > 0 || e.observedAt > 0)
              && Finite(e.confidence) && 0.0 <= Value(e.confidence) <= 1.0
  {
    hide Value, Finite, ConfidenceInRange;
    InRangeIff(e.confidence);
  }
}
