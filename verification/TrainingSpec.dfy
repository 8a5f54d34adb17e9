/** One training step as a simultaneous update: every gradient is taken before any parameter moves. */
module TrainingSpec {
  import opened NeuralLayout
  import opened NeuralRoles
  import opened NeuralExpansion
  import opened LinearAlgebra
  import opened Backprop

  datatype Config = Config(
    learningRate: real, enablePlasticity: bool, plasticityThreshold: real, plasticityScale: real)

  /** The effective settings, with the defaults that stand in for unusable ones. */
  datatype Settings = Settings(rate: real, plasticity: bool, threshold: real, scale: real)

  function SettingsOf(c: Config): (s: Settings)
    ensures s.threshold > 0.0 && (c.plasticityThreshold > 0.0 ==> s.threshold == c.plasticityThreshold)
    ensures s.scale >= 0.0 && (c.plasticityScale >= 0.0 ==> s.scale == c.plasticityScale)
    ensures c.plasticityThreshold <= 0.0 ==> s.threshold == 0.5
    ensures c.plasticityScale < 0.0 ==> s.scale == 0.1
    ensures s.rate == c.learningRate && s.plasticity == c.enablePlasticity
  {
    Settings(c.learningRate, c.enablePlasticity,
             if c.plasticityThreshold > 0.0 then c.plasticityThreshold else 0.5,
             if c.plasticityScale >= 0.0 then c.plasticityScale else 0.1)
  }

  // ---------------------------------------------------------------- one cell

  datatype Cell = Cell(value: real, importance: real)

  predicate Protected(s: Settings, importance: real) {
    s.plasticity && importance > s.threshold
  }

  function Abs(x: real): (r: real)
    ensures r >= 0.0 && (r == x || r == -x)
  {
    if x < 0.0 then -x else x
  }

  function EffectiveRate(s: Settings, importance: real): (rate: real)
    ensures s.plasticity && importance > s.threshold ==> rate == s.rate * s.scale
    ensures !s.plasticity || importance <= s.threshold ==> rate == s.rate
  {
    if Protected(s, importance) then Product(s.rate, s.scale) else s.rate
  }

  function Updated(s: Settings, c: Cell, gradient: real): Cell {
    Cell(c.value - Product(EffectiveRate(s, c.importance), gradient),
         if s.plasticity then c.importance + Abs(gradient) else c.importance)
  }

  /** How many of the cells are over the protection threshold. */
  function CountProtected(s: Settings, importance: seq<real>): nat {
    if importance == [] then 0 else
      var n := |importance| - 1;
      CountProtected(s, importance[..n]) + if Protected(s, importance[n]) then 1 else 0
  }

  // ---------------------------------------------------------------- the network as layers

  function NetOf(p: Params, w: seq<nat>): (ls: seq<Layer>)
    requires Widths(w) && |p.weights| == WeightCount(w) && |p.biases| == BiasCount(w)
    ensures |ls| == Layers(w)
    ensures forall l, o :: 0 <= l < |ls| && 0 <= o < w[l + 1] ==>
              |ls[l].rows| == |ls[l].bias| == w[l + 1] && |ls[l].rows[o]| == w[l]
  {
    seq(Layers(w), l requires 0 <= l < Layers(w) =>
      Layer(
        seq(w[l + 1], o requires 0 <= o < w[l + 1] =>
          seq(w[l], i requires 0 <= i < w[l] =>
            WeightIndexInRange(w, Coord(l, o, i));
            p.weights[WeightIndex(w, Coord(l, o, i))])),
        seq(w[l + 1], o requires 0 <= o < w[l + 1] =>
          BiasIndexInRange(w, l, o);
          p.biases[BiasIndex(w, l, o)])))
  }

  lemma NetOfFits(p: Params, w: seq<nat>)
    requires Widths(w) && |p.weights| == WeightCount(w) && |p.biases| == BiasCount(w) && w[Layers(w)] == 1
    ensures NetFits(NetOf(p, w), w)
  {
    var ls := NetOf(p, w);
    forall l | 0 <= l < |ls|
      ensures LayerFits(ls[l], w[l], w[l + 1])
    {
      assert w[l + 1] > 0;
      assert |ls[l].rows[0]| == w[l];
    }
  }

  function Pair(source: Vectors, target: Vectors): Vector {
    source.embedding + target.embedding
  }

  // ---------------------------------------------------------------- one step

  /** Everything the gradients of one step depend on, fixed before anything moves. */
  datatype Step = Step(f: Math, w: seq<nat>, p: Params, x: Vector, expected: real)

  predicate StepFits(t: Step) {
    && Widths(t.w) && t.w[Layers(t.w)] == 1 && |t.x| == t.w[0]
    && |t.p.weights| == |t.p.weightImportance| == WeightCount(t.w)
    && |t.p.biases| == |t.p.biasImportance| == BiasCount(t.w)
  }

  function Top(t: Step): real
    requires StepFits(t)
  {
    NetOfFits(t.p, t.w);
    Output(t.f, NetOf(t.p, t.w), t.w, t.x) - t.expected
  }

  function Act(t: Step, l: nat): (a: Vector)
    requires StepFits(t) && l <= Layers(t.w)
    ensures |a| == t.w[l]
  {
    NetOfFits(t.p, t.w);
    Activation(t.f, NetOf(t.p, t.w), t.w, t.x, l)
  }

  function Del(t: Step, l: nat): (d: Vector)
    requires StepFits(t) && l <= Layers(t.w)
    ensures |d| == t.w[l]
  {
    NetOfFits(t.p, t.w);
    Delta(t.f, NetOf(t.p, t.w), t.w, t.x, Top(t), l)
  }

  function WeightGradient(t: Step, c: Coord): real
    requires StepFits(t) && ValidCoord(t.w, c)
  {
    hide Del, Act, StepFits;
    Product(Del(t, c.layer + 1)[c.output], Act(t, c.layer)[c.input])
  }

  function BiasGradient(t: Step, u: NeuralRoles.Unit): real
    requires StepFits(t) && ValidUnit(t.w, u.layer, u.output)
  {
    hide Del, StepFits;
    Del(t, u.layer + 1)[u.output]
  }

  function WeightCell(t: Step, j: nat): Cell
    requires StepFits(t) && j < WeightCount(t.w)
  {
    Cell(t.p.weights[j], t.p.weightImportance[j])
  }

  function BiasCell(t: Step, j: nat): Cell
    requires StepFits(t) && j < BiasCount(t.w)
  {
    Cell(t.p.biases[j], t.p.biasImportance[j])
  }

  function NewWeightCell(s: Settings, t: Step, j: nat): Cell
    requires StepFits(t) && j < WeightCount(t.w)
  {
    LocateIsInverse(t.w, j);
    Updated(s, WeightCell(t, j), WeightGradient(t, Locate(t.w, j)))
  }

  function NewBiasCell(s: Settings, t: Step, j: nat): Cell
    requires StepFits(t) && j < BiasCount(t.w)
  {
    Updated(s, BiasCell(t, j), BiasGradient(t, LocateUnit(t.w, j)))
  }

  /** The shared parameters after the step: each cell moved once, by its own pre-step gradient. */
  function TrainedParams(s: Settings, t: Step): Params
    requires StepFits(t)
  {
    var weights, biases := WeightCount(t.w), BiasCount(t.w);
    Params(
      seq(weights, j requires 0 <= j < weights => NewWeightCell(s, t, j).value),
      seq(biases, j requires 0 <= j < biases => NewBiasCell(s, t, j).value),
      seq(weights, j requires 0 <= j < weights => NewWeightCell(s, t, j).importance),
      seq(biases, j requires 0 <= j < biases => NewBiasCell(s, t, j).importance))
  }

  /** Dimension `i` of a node after its embedding gradient is applied. */
  function EmbeddingCell(v: Vectors, i: nat): Cell
    requires i < |v.embedding| && i < |v.importance|
  {
    Cell(v.embedding[i], v.importance[i])
  }

  /** The source node's dimension: when both nodes are one, the two half-updates follow each other. */
  function NewSourceCell(s: Settings, t: Step, v: Vectors, same: bool, i: nat): Cell
    requires StepFits(t) && t.w[0] == 2 * |v.embedding| && |v.importance| == |v.embedding| && i < |v.embedding|
  {
    var first := Updated(s, EmbeddingCell(v, i), Del(t, 0)[i]);
    if same then Updated(s, first, Del(t, 0)[|v.embedding| + i]) else first
  }

  function NewTargetCell(s: Settings, t: Step, v: Vectors, i: nat): Cell
    requires StepFits(t) && t.w[0] == 2 * |v.embedding| && |v.importance| == |v.embedding| && i < |v.embedding|
  {
    Updated(s, EmbeddingCell(v, i), Del(t, 0)[|v.embedding| + i])
  }

  predicate VectorsFitStep(t: Step, v: Vectors)
    requires StepFits(t)
  {
    |v.embedding| == |v.importance| && t.w[0] == 2 * |v.embedding|
  }

  function TrainedSource(s: Settings, t: Step, v: Vectors, same: bool): Vectors
    requires StepFits(t) && VectorsFitStep(t, v)
  {
    var n := |v.embedding|;
    Vectors(seq(n, i requires 0 <= i < n => NewSourceCell(s, t, v, same, i).value),
            seq(n, i requires 0 <= i < n => NewSourceCell(s, t, v, same, i).importance))
  }

  function TrainedTarget(s: Settings, t: Step, v: Vectors): Vectors
    requires StepFits(t) && VectorsFitStep(t, v)
  {
    var n := |v.embedding|;
    Vectors(seq(n, i requires 0 <= i < n => NewTargetCell(s, t, v, i).value),
            seq(n, i requires 0 <= i < n => NewTargetCell(s, t, v, i).importance))
  }

  /** The importance the target-half update of dimension `i` meets. */
  function TargetImportance(s: Settings, t: Step, source: Vectors, target: Vectors, same: bool, i: nat): real
    requires StepFits(t) && VectorsFitStep(t, source) && VectorsFitStep(t, target) && i < |source.embedding|
  {
    if same then Updated(s, EmbeddingCell(source, i), Del(t, 0)[i]).importance else target.importance[i]
  }

  /** How many of the first `n` dimensions' half-updates are protected. */
  function EmbeddingProtected(s: Settings, t: Step, source: Vectors, target: Vectors, same: bool, n: nat): nat
    requires StepFits(t) && VectorsFitStep(t, source) && VectorsFitStep(t, target) && n <= |source.embedding|
  {
    if n == 0 then 0 else
      EmbeddingProtected(s, t, source, target, same, n - 1)
      + (if Protected(s, source.importance[n - 1]) then 1 else 0)
      + (if Protected(s, TargetImportance(s, t, source, target, same, n - 1)) then 1 else 0)
  }

  /** Every over-threshold update of one step. */
  function TotalProtected(s: Settings, t: Step, source: Vectors, target: Vectors, same: bool): nat
    requires StepFits(t) && VectorsFitStep(t, source) && VectorsFitStep(t, target)
  {
    CountProtected(s, t.p.weightImportance) + CountProtected(s, t.p.biasImportance) +
    EmbeddingProtected(s, t, source, target, same, |source.embedding|)
  }

  function Loss(f: Math, output: real, expected: real): real {
    var epsilon := 0.000001;
    var clipped := if output < epsilon then epsilon else if output > 1.0 - epsilon then 1.0 - epsilon else output;
    -(expected * f.ln(clipped) + (1.0 - expected) * f.ln(1.0 - clipped))
  }

  /** Cross-entropy of the output, taken at the nearer end of [1e-6, 1 - 1e-6] outside it. */
  lemma LossIsClippedCrossEntropy(f: Math, output: real, expected: real)
    ensures 0.000001 <= output <= 0.999999 ==>
              Loss(f, output, expected) == -(expected * f.ln(output) + (1.0 - expected) * f.ln(1.0 - output))
    ensures output < 0.000001 ==> Loss(f, output, expected) == Loss(f, 0.000001, expected)
    ensures output > 0.999999 ==> Loss(f, output, expected) == Loss(f, 0.999999, expected)
  {
  }

  /** The places whose importance is over the threshold, none without plasticity. */
  function OverThreshold(s: Settings, importance: seq<real>): set<nat> {
    set j: nat | j < |importance| && s.plasticity && importance[j] > s.threshold
  }

  /** The protected count is the number of those places. */
  lemma {:induction false} CountProtectedIs(s: Settings, importance: seq<real>)
    ensures CountProtected(s, importance) == |OverThreshold(s, importance)|
  {
    if importance == [] {
      assert OverThreshold(s, importance) == {};
    } else {
      var n := |importance| - 1;
      CountProtectedIs(s, importance[..n]);
      var before := OverThreshold(s, importance[..n]);
      assert OverThreshold(s, importance) == before + if s.plasticity && importance[n] > s.threshold then {n} else {};
    }
  }

  // ---------------------------------------------------------------- what a step guarantees

  lemma UpdatedImportance(s: Settings, c: Cell, gradient: real)
    ensures Updated(s, c, gradient).importance >= c.importance
    ensures !s.plasticity ==> Updated(s, c, gradient).importance == c.importance
  {
  }

  /** Entry by entry, `after` is at least `before`, and the same when plasticity is off. */
  predicate Grown(s: Settings, before: seq<real>, after: seq<real>) {
    && |before| == |after|
    && (forall j :: 0 <= j < |before| ==> before[j] <= after[j])
    && (!s.plasticity ==> before == after)
  }

  /**
   A step lowers no importance of any weight, bias or embedding dimension, be the two nodes one or
   two, and touches none when plasticity is off.
   */
  lemma ImportanceNeverDecreases(s: Settings, t: Step, a: Vectors, b: Vectors, same: bool)
    requires StepFits(t) && VectorsFitStep(t, a) && VectorsFitStep(t, b)
    ensures var p := TrainedParams(s, t);
            Grown(s, t.p.weightImportance, p.weightImportance) && Grown(s, t.p.biasImportance, p.biasImportance)
    ensures Grown(s, a.importance, TrainedSource(s, t, a, same).importance)
    ensures Grown(s, b.importance, TrainedTarget(s, t, b).importance)
  {
    SharedImportance(s, t);
    SourceImportance(s, t, a, same);
    var after := TrainedTarget(s, t, b).importance;
    forall i | 0 <= i < |b.importance|
      ensures b.importance[i] <= after[i] && (!s.plasticity ==> b.importance[i] == after[i])
    {
      UpdatedImportance(s, EmbeddingCell(b, i), Del(t, 0)[|b.embedding| + i]);
    }
  }

  lemma SharedImportance(s: Settings, t: Step)
    requires StepFits(t)
    ensures var p := TrainedParams(s, t);
            Grown(s, t.p.weightImportance, p.weightImportance) && Grown(s, t.p.biasImportance, p.biasImportance)
  {
    hide Updated, WeightGradient, BiasGradient, Locate, LocateUnit;
    var p := TrainedParams(s, t);
    forall j | 0 <= j < WeightCount(t.w)
      ensures t.p.weightImportance[j] <= p.weightImportance[j]
      ensures !s.plasticity ==> t.p.weightImportance[j] == p.weightImportance[j]
    {
      LocateIsInverse(t.w, j);
      UpdatedImportance(s, WeightCell(t, j), WeightGradient(t, Locate(t.w, j)));
    }
    forall j | 0 <= j < BiasCount(t.w)
      ensures t.p.biasImportance[j] <= p.biasImportance[j]
      ensures !s.plasticity ==> t.p.biasImportance[j] == p.biasImportance[j]
    {
      UpdatedImportance(s, BiasCell(t, j), BiasGradient(t, LocateUnit(t.w, j)));
    }
  }

  lemma SourceImportance(s: Settings, t: Step, a: Vectors, same: bool)
    requires StepFits(t) && VectorsFitStep(t, a)
    ensures Grown(s, a.importance, TrainedSource(s, t, a, same).importance)
  {
    hide Updated, Del;
    var after := TrainedSource(s, t, a, same).importance;
    forall i | 0 <= i < |a.importance|
      ensures a.importance[i] <= after[i] && (!s.plasticity ==> a.importance[i] == after[i])
    {
      var first := Updated(s, EmbeddingCell(a, i), Del(t, 0)[i]);
      UpdatedImportance(s, EmbeddingCell(a, i), Del(t, 0)[i]);
      UpdatedImportance(s, first, Del(t, 0)[|a.embedding| + i]);
    }
  }

  lemma {:induction false} NoneProtected(s: Settings, importance: seq<real>)
    requires !s.plasticity
    ensures CountProtected(s, importance) == 0
  {
    if importance != [] {
      NoneProtected(s, importance[..|importance| - 1]);
    }
  }

  lemma {:induction false} NoEmbeddingProtected(s: Settings, t: Step, a: Vectors, b: Vectors, same: bool, n: nat)
    requires StepFits(t) && VectorsFitStep(t, a) && VectorsFitStep(t, b) && n <= |a.embedding| && !s.plasticity
    ensures EmbeddingProtected(s, t, a, b, same, n) == 0
  {
    hide TargetImportance;
    if n > 0 {
      NoEmbeddingProtected(s, t, a, b, same, n - 1);
    }
  }

  /** With plasticity off, no update of the whole step counts as protected. */
  lemma NothingProtectedWithoutPlasticity(s: Settings, t: Step, a: Vectors, b: Vectors, same: bool)
    requires StepFits(t) && VectorsFitStep(t, a) && VectorsFitStep(t, b) && !s.plasticity
    ensures TotalProtected(s, t, a, b, same) == 0
  {
    NoneProtected(s, t.p.weightImportance);
    NoneProtected(s, t.p.biasImportance);
    NoEmbeddingProtected(s, t, a, b, same, |a.embedding|);
  }

  /** The importances the target-half updates meet: the source's grown ones when both nodes are one. */
  function Met(s: Settings, t: Step, a: Vectors, b: Vectors, same: bool): seq<real>
    requires StepFits(t) && VectorsFitStep(t, a) && VectorsFitStep(t, b)
  {
    var n := |a.embedding|;
    if !same then b.importance
    else seq(n, i requires 0 <= i < n => a.importance[i] + if s.plasticity then Abs(ErrorSlope(t, InputOf(i))) else 0.0)
  }

  /** The half-updates counted are the source's over-threshold dimensions and the target's. */
  lemma {:induction false} EmbeddingProtectedIs(s: Settings, t: Step, a: Vectors, b: Vectors, same: bool, n: nat)
    requires StepFits(t) && VectorsFitStep(t, a) && VectorsFitStep(t, b) && n <= |a.embedding|
    ensures EmbeddingProtected(s, t, a, b, same, n) ==
            |OverThreshold(s, a.importance[..n])| + |OverThreshold(s, Met(s, t, a, b, same)[..n])|
  {
    hide Del, ErrorSlope, Updated, Abs, OverThreshold;
    var met := Met(s, t, a, b, same);
    CountProtectedIs(s, a.importance[..n]);
    CountProtectedIs(s, met[..n]);
    if n > 0 {
      EmbeddingProtectedIs(s, t, a, b, same, n - 1);
      CountProtectedIs(s, a.importance[..n - 1]);
      CountProtectedIs(s, met[..n - 1]);
      InputDelta(t, n - 1);
      UpdatedParts(s, EmbeddingCell(a, n - 1), ErrorSlope(t, InputOf(n - 1)));
      assert a.importance[..n][..n - 1] == a.importance[..n - 1];
      assert met[..n][..n - 1] == met[..n - 1];
    }
  }

  /** So the step's count is of all over-threshold weights, biases and embedding half-updates. */
  lemma TotalProtectedIs(s: Settings, t: Step, a: Vectors, b: Vectors, same: bool)
    requires StepFits(t) && VectorsFitStep(t, a) && VectorsFitStep(t, b)
    ensures TotalProtected(s, t, a, b, same) ==
            |OverThreshold(s, t.p.weightImportance)| + |OverThreshold(s, t.p.biasImportance)| +
            |OverThreshold(s, a.importance)| + |OverThreshold(s, Met(s, t, a, b, same))|
  {
    hide CountProtected, EmbeddingProtected, OverThreshold, ErrorSlope;
    CountProtectedIs(s, t.p.weightImportance);
    CountProtectedIs(s, t.p.biasImportance);
    EmbeddingProtectedIs(s, t, a, b, same, |a.embedding|);
    assert a.importance[..|a.embedding|] == a.importance;
    assert Met(s, t, a, b, same)[..|a.embedding|] == Met(s, t, a, b, same);
  }

  /** The weight cell at a coordinate moved by that coordinate's own gradient. */
  lemma TrainedWeightAt(s: Settings, t: Step, c: Coord)
    requires StepFits(t) && ValidCoord(t.w, c)
    ensures (WeightIndexInRange(t.w, c);
             var j := WeightIndex(t.w, c);
             Cell(TrainedParams(s, t).weights[j], TrainedParams(s, t).weightImportance[j]) ==
             Updated(s, WeightCell(t, j), WeightGradient(t, c)))
  {
    hide Updated, WeightGradient, WeightIndex, Locate;
    WeightIndexInRange(t.w, c);
    var j := WeightIndex(t.w, c);
    LocateIsInverse(t.w, j);
    WeightIndexIsInjective(t.w, c, Locate(t.w, j));
  }

  lemma TrainedBiasAt(s: Settings, t: Step, u: NeuralRoles.Unit)
    requires StepFits(t) && ValidUnit(t.w, u.layer, u.output)
    ensures (BiasIndexInRange(t.w, u.layer, u.output);
             var j := BiasIndex(t.w, u.layer, u.output);
             Cell(TrainedParams(s, t).biases[j], TrainedParams(s, t).biasImportance[j]) ==
             Updated(s, BiasCell(t, j), BiasGradient(t, u)))
  {
    hide Updated, BiasGradient, BiasIndex, LocateUnit;
    BiasIndexInRange(t.w, u.layer, u.output);
    var j := BiasIndex(t.w, u.layer, u.output);
    var v := LocateUnit(t.w, j);
    BiasIndexIsInjective(t.w, u.layer, u.output, v.layer, v.output);
  }

  /** The scalar before the sigmoid, and its derivative in one parameter, by dual numbers. */
  function OutputTowards(t: Step, p: Parameter): Dual
    requires StepFits(t) && ValidParameter(t.w, p)
  {
    NetOfFits(t.p, t.w);
    TowardsFits(NetOf(t.p, t.w), t.w, t.x, p);
    DualOutput(t.f, NetTowards(NetOf(t.p, t.w), p), t.w, InputTowards(t.x, p))
  }

  /** The slope of the error in one parameter: the sigmoid's value less the target, times the derivative. */
  function ErrorSlope(t: Step, p: Parameter): real
    requires StepFits(t) && ValidParameter(t.w, p)
  {
    (t.f.sigmoid(OutputTowards(t, p).v) - t.expected) * OutputTowards(t, p).e
  }

  /** The output error is the sigmoid of the network's last sum, less the target. */
  lemma TopIsError(t: Step, p: Parameter)
    requires StepFits(t) && ValidParameter(t.w, p)
    ensures Top(t) == t.f.sigmoid(OutputTowards(t, p).v) - t.expected
  {
    hide NetOf, NetTowards, InputTowards, DualOutput, Output;
    NetOfFits(t.p, t.w);
    var ls := NetOf(t.p, t.w);
    TowardsFits(ls, t.w, t.x, p);
    OutputIsSigmoid(t.f, NetTowards(ls, p), ls, t.w, InputTowards(t.x, p));
  }

  lemma GradientIsErrorSlope(t: Step, p: Parameter)
    requires StepFits(t) && ValidParameter(t.w, p)
    ensures (NetOfFits(t.p, t.w); Gradient(t.f, NetOf(t.p, t.w), t.w, t.x, Top(t), p) == ErrorSlope(t, p))
  {
    hide NetOf, NetTowards, InputTowards, DualOutput, Gradient, Top;
    NetOfFits(t.p, t.w);
    TopIsError(t, p);
    GradientIsDerivative(t.f, NetOf(t.p, t.w), t.w, t.x, Top(t), p);
  }

  /** Each weight moves against the slope of the error in that weight, by its own rate. */
  lemma TrainingDescends(s: Settings, t: Step, c: Coord)
    requires StepFits(t) && ValidCoord(t.w, c)
    ensures (WeightIndexInRange(t.w, c);
             var j := WeightIndex(t.w, c);
             var slope := ErrorSlope(t, WeightOf(c));
             && TrainedParams(s, t).weights[j] == t.p.weights[j] - EffectiveRate(s, t.p.weightImportance[j]) * slope
             && TrainedParams(s, t).weightImportance[j] ==
                t.p.weightImportance[j] + if s.plasticity then Abs(slope) else 0.0)
  {
    hide NetOf, TrainedParams, WeightIndex, ErrorSlope, Activation, Delta;
    TrainedWeightAt(s, t, c);
    GradientIsErrorSlope(t, WeightOf(c));
  }

  /** So does each bias. */
  lemma BiasDescends(s: Settings, t: Step, u: NeuralRoles.Unit)
    requires StepFits(t) && ValidUnit(t.w, u.layer, u.output)
    ensures (BiasIndexInRange(t.w, u.layer, u.output);
             var j := BiasIndex(t.w, u.layer, u.output);
             var slope := ErrorSlope(t, BiasOf(u.layer, u.output));
             && TrainedParams(s, t).biases[j] == t.p.biases[j] - EffectiveRate(s, t.p.biasImportance[j]) * slope
             && TrainedParams(s, t).biasImportance[j] ==
                t.p.biasImportance[j] + if s.plasticity then Abs(slope) else 0.0)
  {
    hide NetOf, TrainedParams, BiasIndex, ErrorSlope, Activation, Delta;
    TrainedBiasAt(s, t, u);
    GradientIsErrorSlope(t, BiasOf(u.layer, u.output));
  }

  /**
   So does each embedding dimension, the source node's in the first input half and the target node's
   in the second. When they are one node it takes both steps, the second at the rate its importance
   has after the first.
   */
  lemma EmbeddingDescends(s: Settings, t: Step, a: Vectors, b: Vectors, same: bool, i: nat)
    requires StepFits(t) && VectorsFitStep(t, a) && VectorsFitStep(t, b) && i < |a.embedding|
    ensures var slope, slope' := ErrorSlope(t, InputOf(i)), ErrorSlope(t, InputOf(|a.embedding| + i));
            var grown := a.importance[i] + if s.plasticity then Abs(slope) else 0.0;
            var first := Product(EffectiveRate(s, a.importance[i]), slope);
            var second := Product(EffectiveRate(s, if same then grown else b.importance[i]), slope');
            var more := if s.plasticity then Abs(slope') else 0.0;
            var a', b' := TrainedSource(s, t, a, same), TrainedTarget(s, t, b);
            && a'.embedding[i] == a.embedding[i] - first - (if same then second else 0.0)
            && a'.importance[i] == grown + (if same then more else 0.0)
            && (!same ==> b'.embedding[i] == b.embedding[i] - second && b'.importance[i] == b.importance[i] + more)
  {
    hide ErrorSlope, EffectiveRate, NewSourceCell, NewTargetCell, TrainedSource, TrainedTarget, Abs, SettingsOf;
    hide Updated, Protected, Del, Product;
    SourceParts(s, t, a, same, i);
    TargetParts(s, t, b, i);
    CellsAt(s, t, a, b, same, i);
  }

  lemma CellsAt(s: Settings, t: Step, a: Vectors, b: Vectors, same: bool, i: nat)
    requires StepFits(t) && VectorsFitStep(t, a) && VectorsFitStep(t, b) && i < |a.embedding|
    ensures var a', b' := TrainedSource(s, t, a, same), TrainedTarget(s, t, b);
            && |a'.embedding| == |a'.importance| == |b'.embedding| == |b'.importance| == |a.embedding|
            && Cell(a'.embedding[i], a'.importance[i]) == NewSourceCell(s, t, a, same, i)
            && Cell(b'.embedding[i], b'.importance[i]) == NewTargetCell(s, t, b, i)
  {
    hide NewSourceCell, NewTargetCell, SettingsOf;
  }

  lemma SourceParts(s: Settings, t: Step, a: Vectors, same: bool, i: nat)
    requires StepFits(t) && VectorsFitStep(t, a) && i < |a.embedding|
    ensures var slope, slope' := ErrorSlope(t, InputOf(i)), ErrorSlope(t, InputOf(|a.embedding| + i));
            var grown := a.importance[i] + if s.plasticity then Abs(slope) else 0.0;
            var c := NewSourceCell(s, t, a, same, i);
            && c.value == a.embedding[i] - Product(EffectiveRate(s, a.importance[i]), slope)
                          - (if same then Product(EffectiveRate(s, grown), slope') else 0.0)
            && c.importance == grown + if same && s.plasticity then Abs(slope') else 0.0
  {
    hide Del, ErrorSlope, EffectiveRate, Updated, Abs, SettingsOf, Product;
    InputDelta(t, i);
    InputDelta(t, |a.embedding| + i);
    var cell, slope := EmbeddingCell(a, i), ErrorSlope(t, InputOf(i));
    UpdatedParts(s, cell, slope);
    UpdatedParts(s, Updated(s, cell, slope), ErrorSlope(t, InputOf(|a.embedding| + i)));
  }

  lemma TargetParts(s: Settings, t: Step, b: Vectors, i: nat)
    requires StepFits(t) && VectorsFitStep(t, b) && i < |b.embedding|
    ensures var slope := ErrorSlope(t, InputOf(|b.embedding| + i));
            var c := NewTargetCell(s, t, b, i);
            && c.value == b.embedding[i] - Product(EffectiveRate(s, b.importance[i]), slope)
            && c.importance == b.importance[i] + if s.plasticity then Abs(slope) else 0.0
  {
    hide Del, ErrorSlope, EffectiveRate, Updated, Abs, SettingsOf, Product;
    InputDelta(t, |b.embedding| + i);
    UpdatedParts(s, EmbeddingCell(b, i), ErrorSlope(t, InputOf(|b.embedding| + i)));
  }

  /** The first delta vector holds the slopes of the error in the inputs. */
  lemma InputDelta(t: Step, i: nat)
    requires StepFits(t) && i < t.w[0]
    ensures Del(t, 0)[i] == ErrorSlope(t, InputOf(i))
  {
    hide NetOf, ErrorSlope, Activation, Delta;
    GradientIsErrorSlope(t, InputOf(i));
  }

  lemma UpdatedParts(s: Settings, c: Cell, gradient: real)
    ensures Updated(s, c, gradient).value == c.value - Product(EffectiveRate(s, c.importance), gradient)
    ensures Updated(s, c, gradient).importance == c.importance + if s.plasticity then Abs(gradient) else 0.0
  {
  }
}
