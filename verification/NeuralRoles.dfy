/**
 Monotonic expansion of a dense scorer: which migrations are valid, where each learned parameter
 goes in the larger network, and how the new coordinates are drawn.
 */
module NeuralRoles {
  import opened Options
  import opened NeuralLayout

  const MIGRATION_VERSION: nat := 1

  datatype Migration = Migration(
    version: u32, seed: bv64, boundary: nat, source: Architecture, target: Architecture)

  /** The sum of the first `n` hidden widths. */
  function WidthSum(a: Architecture, n: nat): nat
    requires n <= 4
  {
    if n == 0 then 0 else WidthSum(a, n - 1) + a.hiddenWidths[n - 1]
  }

  function FinalHidden(a: Architecture): nat
    requires 0 < a.hiddenLayerCount <= 4
  {
    a.hiddenWidths[a.hiddenLayerCount - 1]
  }

  /** Some dimension is larger in the target. */
  predicate Grew(s: Architecture, t: Architecture)
    requires s.hiddenLayerCount <= 4
  {
    || t.embeddingDim > s.embeddingDim
    || t.hiddenLayerCount > s.hiddenLayerCount
    || exists l :: 0 <= l < s.hiddenLayerCount && t.hiddenWidths[l] > s.hiddenWidths[l]
  }

  /** The target holds every coordinate of the source. */
  predicate Contains(s: Architecture, t: Architecture) {
    && WellShaped(s) && WellShaped(t)
    && t.embeddingDim >= s.embeddingDim
    && t.hiddenLayerCount >= s.hiddenLayerCount
    && (forall l :: 0 <= l < s.hiddenLayerCount ==> t.hiddenWidths[l] >= s.hiddenWidths[l])
    && FinalHidden(t) >= FinalHidden(s)
  }

  predicate ValidMigration(m: Migration) {
    && m.version == MIGRATION_VERSION && m.seed != 0
    && Accepts(m.source) && Accepts(m.target)
    && Contains(m.source, m.target) && Grew(m.source, m.target)
  }

  lemma AcceptedIsWellShaped(a: Architecture)
    requires Accepts(a)
    ensures WellShaped(a)
  {
  }

  /** The migration check as the core performs it. */
  method Validate(m: Migration) returns (ok: bool)
    ensures ok <==> ValidMigration(m)
  {
    hide Accepts, LayoutOf, WidthsOf;
    if m.version != MIGRATION_VERSION || m.seed == 0 {
      return false;
    }
    var s := BuildLayout(m.source);
    var t := BuildLayout(m.target);
    if s.None? || t.None? {
      return false;
    }
    AcceptedIsWellShaped(m.source);
    AcceptedIsWellShaped(m.target);
    if m.source.version != m.target.version || m.source.outputDim != m.target.outputDim ||
       m.target.embeddingDim < m.source.embeddingDim ||
       m.target.hiddenLayerCount < m.source.hiddenLayerCount {
      return false;
    }
    var grew := m.target.embeddingDim > m.source.embeddingDim ||
                m.target.hiddenLayerCount > m.source.hiddenLayerCount;
    ghost var grewBefore := grew;
    for layer := 0 to m.source.hiddenLayerCount
      invariant forall l :: 0 <= l < layer ==> m.target.hiddenWidths[l] >= m.source.hiddenWidths[l]
      invariant grew <==> grewBefore ||
                          exists l :: 0 <= l < layer && m.target.hiddenWidths[l] > m.source.hiddenWidths[l]
    {
      if m.target.hiddenWidths[layer] < m.source.hiddenWidths[layer] {
        return false;
      }
      if m.target.hiddenWidths[layer] > m.source.hiddenWidths[layer] {
        grew := true;
      }
    }
    if FinalHidden(m.target) < FinalHidden(m.source) {
      return false;
    }
    return grew;
  }

  // ---------------------------------------------------------------- every chain is finite

  /** Embedding width, layer count and summed hidden widths. */
  function Size(a: Architecture): nat {
    a.embeddingDim + a.hiddenLayerCount + WidthSum(a, 4)
  }

  lemma {:induction false} WidthSumGrows(s: Architecture, t: Architecture, n: nat)
    requires Contains(s, t) && n <= 4
    ensures WidthSum(s, n) <= WidthSum(t, n)
    ensures (exists l :: 0 <= l < n && l < s.hiddenLayerCount && t.hiddenWidths[l] > s.hiddenWidths[l]) ==>
              WidthSum(s, n) < WidthSum(t, n)
  {
    if n > 0 {
      WidthSumGrows(s, t, n - 1);
    }
  }

  lemma {:induction false} WidthSumBound(a: Architecture, n: nat)
    requires WellShaped(a) && n <= 4
    ensures WidthSum(a, n) <= n * WIDTH_LIMIT
  {
    if n > 0 {
      WidthSumBound(a, n - 1);
    }
  }

  lemma MigrationGrows(m: Migration)
    requires ValidMigration(m)
    ensures Size(m.source) < Size(m.target) <= 5 * WIDTH_LIMIT + 4
  {
    WidthSumGrows(m.source, m.target, 4);
    WidthSumBound(m.target, 4);
  }

  /** Each migration starts where the one before it ended, at no earlier boundary. */
  predicate Chain(ms: seq<Migration>) {
    && (forall i :: 0 <= i < |ms| ==> ValidMigration(ms[i]))
    && (forall i :: 0 < i < |ms| ==> ms[i - 1].target == ms[i].source && ms[i - 1].boundary <= ms[i].boundary)
  }

  /** No model generation can be expanded forever: every chain of valid migrations has a fixed bound. */
  lemma {:induction false} ChainIsBounded(ms: seq<Migration>)
    requires Chain(ms) && ms != []
    ensures Size(ms[0].source) + |ms| <= Size(ms[|ms| - 1].target) <= 5 * WIDTH_LIMIT + 4
    ensures |ms| < 5 * WIDTH_LIMIT + 4
  {
    var n := |ms| - 1;
    MigrationGrows(ms[n]);
    if n > 0 {
      ChainIsBounded(ms[..n]);
    }
  }

  // ---------------------------------------------------------------- roles

  /** Where a weight of the source network belongs in the target network. */
  function TargetRole(s: Architecture, t: Architecture, c: Coord): Coord {
    if c.layer == s.hiddenLayerCount then
      Coord(t.hiddenLayerCount, c.output, c.input)
    else if c.layer == 0 && c.input >= s.embeddingDim then
      Coord(0, c.output, c.input - s.embeddingDim + t.embeddingDim)
    else
      c
  }

  /** The weight of the source network that a target weight continues, if any. */
  function SourceRole(s: Architecture, t: Architecture, c: Coord): Option<Coord>
    requires WellShaped(s) && WellShaped(t)
  {
    if c.layer == t.hiddenLayerCount then
      if c.input < FinalHidden(s) then Some(Coord(s.hiddenLayerCount, c.output, c.input)) else None
    else if c.layer >= s.hiddenLayerCount || c.output >= s.hiddenWidths[c.layer] then
      None
    else if c.layer > 0 then
      if c.input < s.hiddenWidths[c.layer - 1] then Some(c) else None
    else if c.input < s.embeddingDim then
      Some(c)
    else if t.embeddingDim <= c.input < t.embeddingDim + s.embeddingDim then
      Some(Coord(0, c.output, c.input - t.embeddingDim + s.embeddingDim))
    else
      None
  }

  /** Every learned weight has a place in the target, from which its own coordinate is recovered. */
  lemma TargetRoleIsValid(s: Architecture, t: Architecture, c: Coord)
    requires Contains(s, t) && ValidCoord(WidthsOf(s), c)
    ensures ValidCoord(WidthsOf(t), TargetRole(s, t, c)) && SourceRole(s, t, TargetRole(s, t, c)) == Some(c)
  {
    hide WidthsOf;
    WellShapedWidths(s);
    WellShapedWidths(t);
    if c.layer == s.hiddenLayerCount {
      OutputRoleIsValid(s, t, c);
    } else {
      HiddenRoleIsValid(s, t, c);
    }
  }

  lemma OutputRoleIsValid(s: Architecture, t: Architecture, c: Coord)
    requires Contains(s, t) && ValidCoord(WidthsOf(s), c) && c.layer == s.hiddenLayerCount
    ensures ValidCoord(WidthsOf(t), TargetRole(s, t, c)) && SourceRole(s, t, TargetRole(s, t, c)) == Some(c)
  {
    hide WidthsOf;
    WellShapedWidths(s);
    WellShapedWidths(t);
    assert WidthsOf(s)[c.layer] == FinalHidden(s) && WidthsOf(t)[t.hiddenLayerCount] == FinalHidden(t);
  }

  lemma HiddenRoleIsValid(s: Architecture, t: Architecture, c: Coord)
    requires Contains(s, t) && ValidCoord(WidthsOf(s), c) && c.layer < s.hiddenLayerCount
    ensures ValidCoord(WidthsOf(t), TargetRole(s, t, c)) && SourceRole(s, t, TargetRole(s, t, c)) == Some(c)
  {
    hide WidthsOf, FinalHidden;
    WellShapedWidths(s);
    WellShapedWidths(t);
    assert c.output < s.hiddenWidths[c.layer] <= t.hiddenWidths[c.layer];
    if c.layer > 0 {
      assert c.input < s.hiddenWidths[c.layer - 1] <= t.hiddenWidths[c.layer - 1];
    }
  }

  /** Every source weight has a place in the target network. */
  ghost predicate AllPlaced(s: Architecture, t: Architecture)
    requires WellShaped(s) && WellShaped(t)
  {
    forall c :: ValidCoord(WidthsOf(s), c) ==> ValidCoord(WidthsOf(t), TargetRole(s, t, c))
  }

  /** No two source weights have the same place. */
  ghost predicate NoneShared(s: Architecture, t: Architecture)
    requires WellShaped(s) && WellShaped(t)
  {
    forall c, d :: ValidCoord(WidthsOf(s), c) && ValidCoord(WidthsOf(s), d) && c != d ==>
      TargetRole(s, t, c) != TargetRole(s, t, d)
  }

  /**
   What validation compares is exactly what relocation needs: the target is large enough in every
   compared dimension just when each learned weight has a place of its own in it.
   */
  lemma ContainsIff(s: Architecture, t: Architecture)
    requires WellShaped(s) && WellShaped(t)
    ensures Contains(s, t) <==> AllPlaced(s, t) && NoneShared(s, t)
  {
    if Contains(s, t) {
      ContainedIsPlaced(s, t);
    }
    if AllPlaced(s, t) && NoneShared(s, t) {
      PlacedIsContained(s, t);
    }
  }

  /** Among architectures the target contains, only the target itself has not grown. */
  lemma GrewIff(s: Architecture, t: Architecture)
    requires Contains(s, t)
    ensures Grew(s, t) <==> s != t
  {
    if !Grew(s, t) {
      assert s.hiddenWidths == t.hiddenWidths;
    }
  }

  /**
   So a migration is valid exactly when it has the version and a seed, both architectures are
   accepted and differ, and each learned weight has a place of its own.
   */
  lemma ValidMigrationIff(m: Migration)
    ensures ValidMigration(m) <==>
            && m.version == 1 && m.seed != 0 && Accepts(m.source) && Accepts(m.target)
            && m.source != m.target && AllPlaced(m.source, m.target) && NoneShared(m.source, m.target)
  {
    hide Contains, Grew, AllPlaced, NoneShared;
    if Accepts(m.source) && Accepts(m.target) {
      ContainsIff(m.source, m.target);
      if Contains(m.source, m.target) {
        GrewIff(m.source, m.target);
      }
    }
  }

  lemma ContainedIsPlaced(s: Architecture, t: Architecture)
    requires Contains(s, t)
    ensures AllPlaced(s, t) && NoneShared(s, t)
  {
    hide WidthsOf, Contains, TargetRole, SourceRole, ValidCoord;
    ContainedIsWellShaped(s, t);
    forall c | ValidCoord(WidthsOf(s), c)
      ensures ValidCoord(WidthsOf(t), TargetRole(s, t, c)) && SourceRole(s, t, TargetRole(s, t, c)) == Some(c)
    {
      TargetRoleIsValid(s, t, c);
    }
  }

  lemma ContainedIsWellShaped(s: Architecture, t: Architecture)
    requires Contains(s, t)
    ensures WellShaped(s) && WellShaped(t)
  {
  }

  /** The last coordinate of each compared dimension, and two first ones, show what is missing. */
  lemma PlacedIsContained(s: Architecture, t: Architecture)
    requires WellShaped(s) && WellShaped(t) && AllPlaced(s, t) && NoneShared(s, t)
    ensures Contains(s, t)
  {
    EnoughLayers(s, t);
    EnoughEmbedding(s, t);
    EnoughOutputs(s, t);
    forall l | 0 <= l < s.hiddenLayerCount
      ensures t.hiddenWidths[l] >= s.hiddenWidths[l]
    {
      EnoughWidth(s, t, l);
    }
  }

  lemma EnoughLayers(s: Architecture, t: Architecture)
    requires WellShaped(s) && WellShaped(t) && NoneShared(s, t)
    ensures t.hiddenLayerCount >= s.hiddenLayerCount
  {
    WellShapedWidths(s);
    hide WidthsOf, NoneShared;
    var hidden, output := Coord(t.hiddenLayerCount, 0, 0), Coord(s.hiddenLayerCount, 0, 0);
    SharedNever(s, t, hidden, output);
  }

  lemma SharedNever(s: Architecture, t: Architecture, c: Coord, d: Coord)
    requires WellShaped(s) && WellShaped(t) && NoneShared(s, t)
    ensures ValidCoord(WidthsOf(s), c) && ValidCoord(WidthsOf(s), d) && c != d ==>
              TargetRole(s, t, c) != TargetRole(s, t, d)
  {
  }

  lemma PlacedAlways(s: Architecture, t: Architecture, c: Coord)
    requires WellShaped(s) && WellShaped(t) && AllPlaced(s, t)
    ensures ValidCoord(WidthsOf(s), c) ==> ValidCoord(WidthsOf(t), TargetRole(s, t, c))
  {
  }

  lemma EnoughEmbedding(s: Architecture, t: Architecture)
    requires WellShaped(s) && WellShaped(t) && AllPlaced(s, t)
    ensures t.embeddingDim >= s.embeddingDim
  {
    WellShapedWidths(s);
    WellShapedWidths(t);
    hide WidthsOf, AllPlaced;
    PlacedAlways(s, t, Coord(0, 0, 2 * s.embeddingDim - 1));
  }

  lemma EnoughOutputs(s: Architecture, t: Architecture)
    requires WellShaped(s) && WellShaped(t) && AllPlaced(s, t)
    ensures FinalHidden(t) >= FinalHidden(s)
  {
    WellShapedWidths(s);
    WellShapedWidths(t);
    hide WidthsOf, AllPlaced;
    PlacedAlways(s, t, Coord(s.hiddenLayerCount, 0, FinalHidden(s) - 1));
  }

  lemma EnoughWidth(s: Architecture, t: Architecture, l: nat)
    requires WellShaped(s) && WellShaped(t) && AllPlaced(s, t)
    requires l < s.hiddenLayerCount <= t.hiddenLayerCount
    ensures t.hiddenWidths[l] >= s.hiddenWidths[l]
  {
    WellShapedWidths(s);
    WellShapedWidths(t);
    hide WidthsOf, AllPlaced;
    PlacedAlways(s, t, Coord(l, s.hiddenWidths[l] - 1, 0));
  }

  /** A continued target weight is the place of the source weight it continues. */
  lemma SourceRoleIsValid(s: Architecture, t: Architecture, d: Coord)
    requires Contains(s, t) && ValidCoord(WidthsOf(t), d) && SourceRole(s, t, d).Some?
    ensures ValidCoord(WidthsOf(s), SourceRole(s, t, d).value) && TargetRole(s, t, SourceRole(s, t, d).value) == d
  {
    WellShapedWidths(s);
    WellShapedWidths(t);
    hide WidthsOf;
    if d.layer < t.hiddenLayerCount {
      assert d.output < t.hiddenWidths[d.layer];
    }
  }

  /** The source weight that place `j` of the target array continues, if any. */
  function Origin(s: Architecture, t: Architecture, j: nat): (c: Option<Coord>)
    requires Contains(s, t) && (WellShapedWidths(t); j < WeightCount(WidthsOf(t)))
    ensures c.Some? ==> ValidCoord(WidthsOf(s), c.value)
  {
    WellShapedWidths(t);
    LocateIsInverse(WidthsOf(t), j);
    var d := Locate(WidthsOf(t), j);
    if SourceRole(s, t, d).Some? then
      SourceRoleIsValid(s, t, d);
      SourceRole(s, t, d)
    else
      None
  }

  function Place(s: Architecture, t: Architecture, c: Coord): (j: nat)
    requires Contains(s, t) && ValidCoord(WidthsOf(s), c)
    ensures (WellShapedWidths(t); j < WeightCount(WidthsOf(t)))
  {
    TargetRoleIsValid(s, t, c);
    WellShapedWidths(t);
    WeightIndexInRange(WidthsOf(t), TargetRole(s, t, c));
    WeightIndex(WidthsOf(t), TargetRole(s, t, c))
  }

  /** A place continues a weight exactly when it is that weight's place: no two copies collide. */
  lemma OriginIff(s: Architecture, t: Architecture, j: nat, c: Coord)
    requires Contains(s, t) && ValidCoord(WidthsOf(s), c) && (WellShapedWidths(t); j < WeightCount(WidthsOf(t)))
    ensures Origin(s, t, j) == Some(c) <==> j == Place(s, t, c)
  {
    WellShapedWidths(t);
    var w := WidthsOf(t);
    LocateIsInverse(w, j);
    hide SourceRole, TargetRole, Locate, WidthsOf, WeightIndex;
    TargetRoleIsValid(s, t, c);
    if SourceRole(s, t, Locate(w, j)).Some? {
      SourceRoleIsValid(s, t, Locate(w, j));
    }
    if j == Place(s, t, c) {
      WeightIndexIsInjective(w, Locate(w, j), TargetRole(s, t, c));
    }
  }

  datatype Unit = Unit(layer: nat, output: nat)

  function UnitRole(s: Architecture, t: Architecture, u: Unit): Unit {
    if u.layer == s.hiddenLayerCount then Unit(t.hiddenLayerCount, u.output) else u
  }

  function SourceUnit(s: Architecture, t: Architecture, u: Unit): Option<Unit>
    requires WellShaped(s) && WellShaped(t)
  {
    if u.layer == t.hiddenLayerCount then Some(Unit(s.hiddenLayerCount, u.output))
    else if u.layer < s.hiddenLayerCount && u.output < s.hiddenWidths[u.layer] then Some(u)
    else None
  }

  lemma UnitRoleIsValid(s: Architecture, t: Architecture, u: Unit)
    requires Contains(s, t) && ValidUnit(WidthsOf(s), u.layer, u.output)
    ensures var r := UnitRole(s, t, u); ValidUnit(WidthsOf(t), r.layer, r.output) && SourceUnit(s, t, r) == Some(u)
  {
    WellShapedWidths(s);
    WellShapedWidths(t);
    hide WidthsOf;
    if u.layer < s.hiddenLayerCount {
      assert u.output < s.hiddenWidths[u.layer];
    }
  }

  lemma SourceUnitIsValid(s: Architecture, t: Architecture, r: Unit)
    requires Contains(s, t) && ValidUnit(WidthsOf(t), r.layer, r.output) && SourceUnit(s, t, r).Some?
    ensures var u := SourceUnit(s, t, r).value;
            ValidUnit(WidthsOf(s), u.layer, u.output) && UnitRole(s, t, u) == r
  {
    WellShapedWidths(s);
    WellShapedWidths(t);
    hide WidthsOf;
  }

  /**
   A weight and the bias of its unit move to one unit, of the same number: the output unit to the
   output unit, a hidden one within its layer. The weight still reads the same unit or, in the first
   layer, the same entry of the pair of embeddings, however both are lengthened at their ends.
   */
  lemma RolesKeepTheirMeaning(s: Architecture, t: Architecture, c: Coord, a: seq<real>, b: seq<real>, a': seq<real>, b': seq<real>)
    requires Contains(s, t) && ValidCoord(WidthsOf(s), c)
    requires |a| == |b| == s.embeddingDim && |a'| == |b'| == t.embeddingDim && a <= a' && b <= b'
    ensures var d, u := TargetRole(s, t, c), UnitRole(s, t, Unit(c.layer, c.output));
            && d.layer == u.layer && d.output == u.output == c.output
            && (c.layer == s.hiddenLayerCount ==> d.layer == t.hiddenLayerCount && d.input == c.input)
            && (c.layer < s.hiddenLayerCount ==> d.layer == c.layer)
            && (0 < c.layer < s.hiddenLayerCount ==> d.input == c.input)
            && (c.layer == 0 ==> d.input < |a' + b'| && (a' + b')[d.input] == (a + b)[c.input])
  {
    WellShapedWidths(s);
  }

  function LocateUnit(w: seq<nat>, j: nat): (u: Unit)
    requires Widths(w) && j < BiasCount(w)
    ensures ValidUnit(w, u.layer, u.output) && BiasIndex(w, u.layer, u.output) == j
  {
    BiasIndexIsOnto(w, j);
    var l := BiasLayerOf(w, Layers(w), j);
    Unit(l, j - BiasOffset(w, l))
  }

  /** The source unit whose bias place `j` of the target continues, if any. */
  function BiasOrigin(s: Architecture, t: Architecture, j: nat): (u: Option<Unit>)
    requires Contains(s, t) && (WellShapedWidths(t); j < BiasCount(WidthsOf(t)))
    ensures u.Some? ==> ValidUnit(WidthsOf(s), u.value.layer, u.value.output)
  {
    WellShapedWidths(t);
    var r := LocateUnit(WidthsOf(t), j);
    if SourceUnit(s, t, r).Some? then
      SourceUnitIsValid(s, t, r);
      SourceUnit(s, t, r)
    else
      None
  }

  function BiasPlace(s: Architecture, t: Architecture, u: Unit): (j: nat)
    requires Contains(s, t) && ValidUnit(WidthsOf(s), u.layer, u.output)
    ensures (WellShapedWidths(t); j < BiasCount(WidthsOf(t)))
  {
    UnitRoleIsValid(s, t, u);
    WellShapedWidths(t);
    var r := UnitRole(s, t, u);
    BiasIndexInRange(WidthsOf(t), r.layer, r.output);
    BiasIndex(WidthsOf(t), r.layer, r.output)
  }

  lemma BiasOriginIff(s: Architecture, t: Architecture, j: nat, u: Unit)
    requires Contains(s, t) && ValidUnit(WidthsOf(s), u.layer, u.output)
    requires (WellShapedWidths(t); j < BiasCount(WidthsOf(t)))
    ensures BiasOrigin(s, t, j) == Some(u) <==> j == BiasPlace(s, t, u)
  {
    WellShapedWidths(t);
    var w := WidthsOf(t);
    var d, r := LocateUnit(w, j), UnitRole(s, t, u);
    hide SourceUnit, UnitRole, LocateUnit, WidthsOf, BiasIndex;
    UnitRoleIsValid(s, t, u);
    if SourceUnit(s, t, d).Some? {
      SourceUnitIsValid(s, t, d);
    }
    if j == BiasPlace(s, t, u) {
      BiasIndexIsInjective(w, d.layer, d.output, r.layer, r.output);
    }
  }

  // ---------------------------------------------------------------- the draw stream

  /** The 64-bit state of a generator. */
  datatype Rng = Rng(word: bv64)

  function Xor(x: bv64, y: bv64): bv64 {
    x ^ y
  }

  function Right12(x: bv64): bv64 {
    x >> 12
  }

  function Left25(x: bv64): bv64 {
    x << 25
  }

  function Right27(x: bv64): bv64 {
    x >> 27
  }

  function MixRight12(x: bv64): bv64 {
    Xor(x, Right12(x))
  }

  function MixLeft25(x: bv64): bv64 {
    Xor(x, Left25(x))
  }

  function MixRight27(x: bv64): bv64 {
    Xor(x, Right27(x))
  }

  /** One xorshift step. */
  function XorShift(x: bv64): bv64 {
    MixRight27(MixLeft25(MixRight12(x)))
  }

  function NextState(r: Rng): Rng {
    Rng(XorShift(r.word))
  }

  /** The 24 topmost bits of a word. */
  function TopBits(x: bv64): int {
    (x >> 40) as int
  }

  function Scramble(x: bv64): bv64 {
    x * 2685821657736338717
  }

  function Signed(r: Rng): real {
    TopBits(Scramble(r.word)) as real / 16777215.0 * 2.0 - 1.0
  }

  function StartState(m: Migration): Rng {
    var word := (m.seed ^ 0x4D49475241544531) ^ (m.version as bv64 * 0x9E3779B97F4A7C15);
    Rng(if word == 0 then 0xA7C15D1CEB00B135 else word)
  }

  /** The generator state after `k` draws. */
  function StateAfter(m: Migration, k: nat): Rng {
    if k == 0 then StartState(m) else NextState(StateAfter(m, k - 1))
  }

  /** Draw number `k` of the migration's stream, counted from zero. */
  function Draw(m: Migration, k: nat): real {
    Signed(StateAfter(m, k + 1))
  }

  lemma MixesKeepNonZero(x: bv64)
    requires x != 0
    ensures MixRight12(x) != 0 && MixLeft25(x) != 0 && MixRight27(x) != 0
  {
  }

  lemma XorShiftKeepsNonZero(x: bv64)
    requires x != 0
    ensures XorShift(x) != 0
  {
    hide MixRight12, MixLeft25, MixRight27;
    MixesKeepNonZero(x);
    MixesKeepNonZero(MixRight12(x));
    MixesKeepNonZero(MixLeft25(MixRight12(x)));
  }

  /** The generator never falls into the all-zero state. */
  lemma {:induction false} StreamIsNonZero(m: Migration, k: nat)
    ensures StateAfter(m, k).word != 0
  {
    if k > 0 {
      StreamIsNonZero(m, k - 1);
      XorShiftKeepsNonZero(StateAfter(m, k - 1).word);
    }
  }

  // A mix carries over to differences, and only the zero difference is mixed to zero.

  lemma XorAssociates(x: bv64, y: bv64, z: bv64)
    ensures Xor(Xor(x, y), z) == Xor(x, Xor(y, z))
  {
    calc {
      Xor(Xor(x, y), z);
      Xor(x ^ y, z);
      (x ^ y) ^ z;
      x ^ (y ^ z);
      Xor(x, y ^ z);
      Xor(x, Xor(y, z));
    }
  }

  lemma XorCommutes(x: bv64, y: bv64)
    ensures Xor(x, y) == Xor(y, x)
  {
  }

  lemma WordsDifferIff(x: bv64, y: bv64)
    ensures x ^ y == 0 <==> x == y
  {
  }

  lemma XorIsZeroIff(x: bv64, y: bv64)
    ensures Xor(x, y) == 0 <==> x == y
  {
    WordsDifferIff(x, y);
  }

  lemma XorInterchanges(x: bv64, y: bv64, a: bv64, b: bv64)
    ensures Xor(Xor(x, y), Xor(a, b)) == Xor(Xor(x, a), Xor(y, b))
  {
    hide Xor;
    XorAssociates(x, y, Xor(a, b));
    XorAssociates(y, a, b);
    XorCommutes(y, a);
    XorAssociates(a, y, b);
    XorAssociates(x, a, Xor(y, b));
  }

  lemma Right12Distributes(x: bv64, y: bv64)
    ensures Right12(Xor(x, y)) == Xor(Right12(x), Right12(y))
  {
  }

  lemma Left25Distributes(x: bv64, y: bv64)
    ensures Left25(Xor(x, y)) == Xor(Left25(x), Left25(y))
  {
  }

  lemma Right27Distributes(x: bv64, y: bv64)
    ensures Right27(Xor(x, y)) == Xor(Right27(x), Right27(y))
  {
  }

  lemma MixesAreLinear(x: bv64, y: bv64)
    ensures MixRight12(Xor(x, y)) == Xor(MixRight12(x), MixRight12(y))
    ensures MixLeft25(Xor(x, y)) == Xor(MixLeft25(x), MixLeft25(y))
    ensures MixRight27(Xor(x, y)) == Xor(MixRight27(x), MixRight27(y))
  {
    hide Xor, Right12, Left25, Right27;
    Right12Distributes(x, y);
    Left25Distributes(x, y);
    Right27Distributes(x, y);
    XorInterchanges(x, y, Right12(x), Right12(y));
    XorInterchanges(x, y, Left25(x), Left25(y));
    XorInterchanges(x, y, Right27(x), Right27(y));
  }

  /** No mix takes two words to one. */
  lemma MixesAreInjective(x: bv64, y: bv64)
    ensures MixRight12(x) == MixRight12(y) ==> x == y
    ensures MixLeft25(x) == MixLeft25(y) ==> x == y
    ensures MixRight27(x) == MixRight27(y) ==> x == y
  {
    hide Xor, MixRight12, MixLeft25, MixRight27;
    MixesAreLinear(x, y);
    XorIsZeroIff(x, y);
    XorIsZeroIff(MixRight12(x), MixRight12(y));
    XorIsZeroIff(MixLeft25(x), MixLeft25(y));
    XorIsZeroIff(MixRight27(x), MixRight27(y));
    if x != y {
      MixesKeepNonZero(Xor(x, y));
    }
  }

  /** So no step of the generator merges two states. */
  lemma XorShiftIsInjective(x: bv64, y: bv64)
    ensures XorShift(x) == XorShift(y) ==> x == y
  {
    hide MixRight12, MixLeft25, MixRight27;
    MixesAreInjective(x, y);
    MixesAreInjective(MixRight12(x), MixRight12(y));
    MixesAreInjective(MixLeft25(MixRight12(x)), MixLeft25(MixRight12(y)));
  }

  /** The one version-1 seed whose mixed word is zero, and the seed whose word is the one put in its place. */
  const ZERO_WORD_SEED: bv64 := 0xD37E3EEB3E1E3924
  const FALLBACK_SEED: bv64 := 0x74BF63F7D51E8811

  /** The two migrations have one seed, or the two seeds that share a stream. */
  predicate SameStream(m: Migration, n: Migration) {
    || m.seed == n.seed
    || (m.seed == ZERO_WORD_SEED && n.seed == FALLBACK_SEED)
    || (m.seed == FALLBACK_SEED && n.seed == ZERO_WORD_SEED)
  }

  lemma StartStateOf(m: Migration)
    requires m.version == 1
    ensures StartState(m).word == if m.seed == ZERO_WORD_SEED then 0xA7C15D1CEB00B135 else Xor(m.seed, ZERO_WORD_SEED)
  {
    XorIsZeroIff(m.seed, ZERO_WORD_SEED);
  }

  lemma XorCancels(x: bv64, y: bv64, c: bv64)
    ensures Xor(x, c) == Xor(y, c) <==> x == y
  {
    hide Xor;
    XorInterchanges(x, c, y, c);
    XorIsZeroIff(x, y);
    XorIsZeroIff(c, c);
    XorIsZeroIff(Xor(x, c), Xor(y, c));
    XorIsZeroIff(Xor(x, y), 0);
  }

  lemma StartStatesEqualIff(m: Migration, n: Migration)
    requires m.version == n.version == 1
    ensures StartState(m) == StartState(n) <==> SameStream(m, n)
  {
    hide StartState, Xor;
    StartStateOf(m);
    StartStateOf(n);
    FallbackWord();
    XorCancels(m.seed, n.seed, ZERO_WORD_SEED);
    XorCancels(m.seed, FALLBACK_SEED, ZERO_WORD_SEED);
    XorCancels(n.seed, FALLBACK_SEED, ZERO_WORD_SEED);
  }

  lemma FallbackWord()
    ensures Xor(FALLBACK_SEED, ZERO_WORD_SEED) == 0xA7C15D1CEB00B135
  {
  }

  /**
   Two migrations run through the same states exactly when their seeds are equal, or are the two
   named seeds; otherwise their states differ after every number of draws.
   */
  lemma {:induction false} StreamsEqualIff(m: Migration, n: Migration, k: nat)
    requires ValidMigration(m) && ValidMigration(n)
    ensures StateAfter(m, k) == StateAfter(n, k) <==> SameStream(m, n)
  {
    hide StartState, XorShift, Contains, Grew, Accepts, SameStream;
    if k == 0 {
      StartStatesEqualIff(m, n);
    } else {
      StreamsEqualIff(m, n, k - 1);
      XorShiftIsInjective(StateAfter(m, k - 1).word, StateAfter(n, k - 1).word);
    }
  }

  lemma TopBitsAreSmall(x: bv64)
    ensures 0 <= TopBits(x) <= 0xFF_FFFF
  {
    var top := (x >> 40) as bv24;
    assert top as int < 0x100_0000;
    assert top as bv64 == x >> 40;
  }

  lemma SignedIsInRange(top: int)
    requires 0 <= top <= 0xFF_FFFF
    ensures -1.0 <= top as real / 16777215.0 * 2.0 - 1.0 <= 1.0
  {
  }

  /** Every draw lies in [-1, 1]. */
  lemma DrawIsInRange(m: Migration, k: nat)
    ensures -1.0 <= Draw(m, k) <= 1.0
  {
    hide StateAfter, TopBits, Scramble;
    var x := Scramble(StateAfter(m, k + 1).word);
    TopBitsAreSmall(x);
    SignedIsInRange(TopBits(x));
  }

  /** The stream of seed 1: its first two states and draws. */
  lemma SeedOneStream(m: Migration)
    requires m.version == 1 && m.seed == 1
    ensures StateAfter(m, 0).word == 0xD37E3EEB3E1E3925
    ensures StateAfter(m, 1).word == 0xC2D252A106E78FED
    ensures StateAfter(m, 2).word == 0xCA87905E5605E975
    ensures Draw(m, 0) == 14315559.0 / 16777215.0 * 2.0 - 1.0
    ensures Draw(m, 1) == 3062439.0 / 16777215.0 * 2.0 - 1.0
  {
    assert StateAfter(m, 0).word == 0xD37E3EEB3E1E3925;
    assert XorShift(0xD37E3EEB3E1E3925) == 0xC2D252A106E78FED;
    assert StateAfter(m, 1).word == 0xC2D252A106E78FED;
    assert XorShift(0xC2D252A106E78FED) == 0xCA87905E5605E975;
    assert StateAfter(m, 2).word == 0xCA87905E5605E975;
    assert (0xC2D252A106E78FED as bv64 * 2685821657736338717) >> 40 == 14315559;
    assert (0xCA87905E5605E975 as bv64 * 2685821657736338717) >> 40 == 3062439;
    assert TopBits(Scramble(0xC2D252A106E78FED)) == 14315559;
    assert TopBits(Scramble(0xCA87905E5605E975)) == 3062439;
  }
}
