/**
 The training loops over flat arrays: the forward pass fills the activation buffer, the backward
 pass the delta buffer, and the update loops move every parameter. Each is proved to compute the
 values that TrainingSpec defines.
 */
module Training {
  import opened NeuralLayout
  import opened NeuralRoles
  import opened NeuralExpansion
  import opened NeuralGraph
  import opened LinearAlgebra
  import opened Backprop
  import opened TrainingSpec

  // ---------------------------------------------------------------- segments of the buffers

  /** The part of a buffer that belongs to activation vector `l`. */
  function Segment(a: seq<real>, w: seq<nat>, l: nat): (v: Vector)
    requires Widths(w) && |a| == ActivationCount(w) && l <= Layers(w)
    ensures |v| == w[l]
  {
    SegmentInRange(w, l);
    a[ActivationOffset(w, l)..ActivationOffset(w, l) + w[l]]
  }

  lemma SegmentInRange(w: seq<nat>, l: nat)
    requires Widths(w) && l <= Layers(w)
    ensures ActivationOffset(w, l + 1) == ActivationOffset(w, l) + w[l] <= ActivationCount(w)
  {
    ActivationGrows(w, l + 1, |w|);
  }

  lemma {:induction false} ActivationGrows(w: seq<nat>, l: nat, m: nat)
    requires l <= m <= |w|
    ensures ActivationOffset(w, l) <= ActivationOffset(w, m)
  {
    if l < m {
      ActivationGrows(w, l, m - 1);
    }
  }

  lemma SegmentsAreApart(w: seq<nat>, l: nat, k: nat)
    requires Widths(w) && l <= Layers(w) && k <= Layers(w) && k != l
    ensures ActivationOffset(w, k) + w[k] <= ActivationOffset(w, l) ||
            ActivationOffset(w, l) + w[l] <= ActivationOffset(w, k)
  {
    hide ActivationOffset;
    if k < l {
      OffsetsIncrease(w, k, l);
    } else {
      OffsetsIncrease(w, l, k);
    }
  }

  /** Writing inside one segment leaves every other segment alone. */
  lemma SegmentUpdate(a: seq<real>, w: seq<nat>, l: nat, i: nat, value: real, k: nat)
    requires Widths(w) && |a| == ActivationCount(w) && l <= Layers(w) && i < w[l] && k <= Layers(w)
    ensures ActivationOffset(w, l) + i < |a|
    ensures Segment(a[ActivationOffset(w, l) + i := value], w, k) ==
            if k == l then Segment(a, w, l)[i := value] else Segment(a, w, k)
  {
    hide ActivationOffset;
    SegmentInRange(w, l);
    SegmentInRange(w, k);
    if k != l {
      SegmentsAreApart(w, l, k);
    }
  }

  /** Store entry `i` of vector `l` in a buffer. */
  method Store(a: array<real>, w: seq<nat>, l: nat, i: nat, value: real)
    requires Widths(w) && a.Length == ActivationCount(w) && l <= Layers(w) && i < w[l]
    modifies a
    ensures forall k :: 0 <= k <= Layers(w) ==>
              Segment(a[..], w, k) == if k == l then old(Segment(a[..], w, l))[i := value] else old(Segment(a[..], w, k))
  {
    hide Segment, ActivationOffset;
    ghost var before := a[..];
    SegmentInRange(w, l);
    a[ActivationOffset(w, l) + i] := value;
    assert a[..] == before[ActivationOffset(w, l) + i := value];
    forall k | 0 <= k <= Layers(w)
      ensures Segment(a[..], w, k) == if k == l then Segment(before, w, l)[i := value] else Segment(before, w, k)
    {
      SegmentUpdate(before, w, l, i, value, k);
    }
  }

  function Load(a: array<real>, w: seq<nat>, l: nat, i: nat): (value: real)
    requires Widths(w) && a.Length == ActivationCount(w) && l <= Layers(w) && i < w[l]
    reads a
    ensures value == Segment(a[..], w, l)[i]
  {
    SegmentInRange(w, l);
    a[ActivationOffset(w, l) + i]
  }

  lemma DotPrefix(a: Vector, b: Vector, i: nat)
    requires |a| == |b| && i < |a|
    ensures Dot(a[..i + 1], b[..i + 1]) == Dot(a[..i], b[..i]) + Product(a[i], b[i])
  {
    assert a[..i + 1][..i] == a[..i] && b[..i + 1][..i] == b[..i];
  }

  /** The network's arrays hold the step's pre-update parameters. */
  ghost predicate Holds(network: Network, t: Step)
    reads network.weights, network.biases, network.weightImportance, network.biasImportance
  {
    StepFits(t) && network.Shaped(t.w) && network.Value() == t.p
  }

  ghost predicate SegmentsAre(a: seq<real>, t: Step, from: nat, to: nat, deltas: bool)
    requires StepFits(t) && |a| == ActivationCount(t.w)
  {
    forall k :: from <= k < to && k <= Layers(t.w) ==>
      Segment(a, t.w, k) == if deltas then Del(t, k) else Act(t, k)
  }

  // ---------------------------------------------------------------- forward

  lemma RowOfNet(t: Step, l: nat, o: nat, i: nat)
    requires StepFits(t) && ValidCoord(t.w, Coord(l, o, i))
    ensures (WeightIndexInRange(t.w, Coord(l, o, i));
             var ls := NetOf(t.p, t.w);
             LayerFits(ls[l], t.w[l], t.w[l + 1]) &&
             ls[l].rows[o][i] == t.p.weights[WeightIndex(t.w, Coord(l, o, i))])
  {
    NetOfFits(t.p, t.w);
  }

  lemma BiasOfNet(t: Step, l: nat, o: nat)
    requires StepFits(t) && ValidUnit(t.w, l, o)
    ensures (BiasIndexInRange(t.w, l, o);
             var ls := NetOf(t.p, t.w);
             LayerFits(ls[l], t.w[l], t.w[l + 1]) && ls[l].bias[o] == t.p.biases[BiasIndex(t.w, l, o)])
  {
    NetOfFits(t.p, t.w);
  }

  /** One unit before squashing: its bias plus the weighted inputs, in input order. */
  method WeighInputs(network: Network, w: seq<nat>, ghost t: Step, layer: nat, o: nat) returns (z: real)
    requires Holds(network, t) && t.w == w && ValidUnit(w, layer, o)
    requires Segment(network.activations[..], w, layer) == Act(t, layer)
    ensures (NetOfFits(t.p, t.w); z == Pre(NetOf(t.p, w)[layer], Act(t, layer))[o])
  {
    hide NetOf, Act, WeightIndex, BiasIndex, Segment;
    NetOfFits(t.p, w);
    BiasOfNet(t, layer, o);
    BiasIndexInRange(w, layer, o);
    ghost var row, input := NetOf(t.p, w)[layer].rows[o], Act(t, layer);
    z := network.biases[BiasIndex(w, layer, o)];
    for i := 0 to w[layer]
      invariant z == NetOf(t.p, w)[layer].bias[o] + Dot(row[..i], input[..i])
    {
      var c := Coord(layer, o, i);
      RowOfNet(t, layer, o, i);
      WeightIndexInRange(w, c);
      DotPrefix(row, input, i);
      var activation := Load(network.activations, w, layer, i);
      z := z + Product(network.weights[WeightIndex(w, c)], activation);
    }
    assert row[..w[layer]] == row && input[..w[layer]] == input;
  }

  method ForwardLayer(network: Network, w: seq<nat>, f: Math, ghost t: Step, layer: nat)
    requires Holds(network, t) && t.w == w && t.f == f && layer < Layers(w)
    requires SegmentsAre(network.activations[..], t, 0, layer + 1, false)
    modifies network.activations
    ensures SegmentsAre(network.activations[..], t, 0, layer + 2, false)
  {
    hide Act, NetOf, Pre, Segment;
    ghost var a := network.activations;
    var final := layer + 1 == Layers(w);
    ActStep(t, layer);
    ghost var out := Act(t, layer + 1);
    for o := 0 to w[layer + 1]
      invariant SegmentsAre(a[..], t, 0, layer + 1, false)
      invariant Segment(a[..], w, layer + 1)[..o] == out[..o]
    {
      var sum := WeighInputs(network, w, t, layer, o);
      var value := if final then f.sigmoid(sum) else f.tanh(sum);
      ghost var before := Segment(a[..], w, layer + 1);
      Store(network.activations, w, layer + 1, o, value);
      assert out[o] == value;
      PrefixStep(before, out, o, Segment(a[..], w, layer + 1));
    }
    assert Segment(a[..], w, layer + 1)[..w[layer + 1]] == Segment(a[..], w, layer + 1);
    assert out[..w[layer + 1]] == out;
  }

  lemma PrefixStep(before: Vector, goal: Vector, o: nat, after: Vector)
    requires |before| == |goal| && o < |goal| && before[..o] == goal[..o]
    requires after == before[o := goal[o]]
    ensures after[..o + 1] == goal[..o + 1]
  {
    assert after[..o] == before[..o];
    assert goal[..o + 1] == goal[..o] + [goal[o]];
    assert after[..o + 1] == after[..o] + [after[o]];
  }

  lemma ActStep(t: Step, layer: nat)
    requires StepFits(t) && layer < Layers(t.w)
    ensures (NetOfFits(t.p, t.w);
             Act(t, layer + 1) == Map(Squash(t.f, layer + 1 == Layers(t.w)), Pre(NetOf(t.p, t.w)[layer], Act(t, layer))))
  {
    hide NetOf;
    NetOfFits(t.p, t.w);
  }

  /** The forward pass: every segment of the activation buffer receives its activation vector. */
  method Forward(network: Network, w: seq<nat>, f: Math, ghost t: Step) returns (output: real)
    requires Holds(network, t) && t.w == w && t.f == f
    requires Segment(network.activations[..], w, 0) == t.x
    modifies network.activations
    ensures SegmentsAre(network.activations[..], t, 0, Layers(w) + 1, false)
    ensures output == Top(t) + t.expected
  {
    hide NetOf;
    NetOfFits(t.p, w);
    assert Act(t, 0) == t.x;
    for layer := 0 to Layers(w)
      invariant SegmentsAre(network.activations[..], t, 0, layer + 1, false)
    {
      ForwardLayer(network, w, f, t, layer);
    }
    output := Load(network.activations, w, Layers(w), 0);
  }

  // ---------------------------------------------------------------- backward

  lemma DelTop(t: Step)
    requires StepFits(t)
    ensures Del(t, Layers(t.w)) == [Top(t)]
  {
    hide NetOf, Activation;
    NetOfFits(t.p, t.w);
  }

  lemma DelStep(t: Step, layer: nat)
    requires StepFits(t) && layer < Layers(t.w)
    ensures (NetOfFits(t.p, t.w);
             var g := VecMat(Del(t, layer + 1), NetOf(t.p, t.w)[layer].rows, t.w[layer]);
             Del(t, layer) == if layer == 0 then g else Times(g, Slope(Act(t, layer))))
  {
    hide NetOf, Top;
    NetOfFits(t.p, t.w);
  }

  /** The deltas of layer `layer`'s outputs pulled back to its input `i`, in output order. */
  method PullBack(network: Network, w: seq<nat>, ghost t: Step, layer: nat, i: nat) returns (gradient: real)
    requires Holds(network, t) && t.w == w && layer < Layers(w) && i < w[layer]
    requires Segment(network.deltas[..], w, layer + 1) == Del(t, layer + 1)
    ensures (NetOfFits(t.p, t.w);
             gradient == VecMat(Del(t, layer + 1), NetOf(t.p, w)[layer].rows, w[layer])[i])
  {
    hide NetOf, Del, WeightIndex, Segment;
    NetOfFits(t.p, w);
    ghost var d := Del(t, layer + 1);
    ghost var column := Column(NetOf(t.p, w)[layer].rows, w[layer], i);
    gradient := 0.0;
    for o := 0 to w[layer + 1]
      invariant gradient == Dot(d[..o], column[..o])
    {
      var c := Coord(layer, o, i);
      RowOfNet(t, layer, o, i);
      WeightIndexInRange(w, c);
      DotPrefix(d, column, o);
      var delta := Load(network.deltas, w, layer + 1, o);
      gradient := gradient + Product(delta, network.weights[WeightIndex(w, c)]);
    }
    assert d[..w[layer + 1]] == d && column[..w[layer + 1]] == column;
  }

  /** One hidden layer of deltas: the pulled-back gradients times the tanh slope. */
  method BackwardLayer(network: Network, w: seq<nat>, ghost t: Step, layer: nat)
    requires Holds(network, t) && t.w == w && layer < Layers(w)
    requires SegmentsAre(network.activations[..], t, 0, Layers(w) + 1, false)
    requires SegmentsAre(network.deltas[..], t, layer + 1, Layers(w) + 1, true)
    modifies network.deltas
    ensures SegmentsAre(network.deltas[..], t, layer, Layers(w) + 1, true)
  {
    hide NetOf, Del, Act, VecMat, Segment;
    DelStep(t, layer);
    ghost var goal := Del(t, layer);
    for i := 0 to w[layer]
      invariant SegmentsAre(network.deltas[..], t, layer + 1, Layers(w) + 1, true)
      invariant Segment(network.deltas[..], w, layer)[..i] == goal[..i]
    {
      var gradient := PullBack(network, w, t, layer, i);
      var value := gradient;
      if layer > 0 {
        var activation := Load(network.activations, w, layer, i);
        value := Product(gradient, 1.0 - Product(activation, activation));
      }
      ghost var before := Segment(network.deltas[..], w, layer);
      Store(network.deltas, w, layer, i, value);
      assert goal[i] == value;
      PrefixStep(before, goal, i, Segment(network.deltas[..], w, layer));
    }
    assert goal[..w[layer]] == goal;
    assert Segment(network.deltas[..], w, layer)[..w[layer]] == Segment(network.deltas[..], w, layer);
  }

  /** The backward pass, before any parameter is touched. */
  method Backward(network: Network, w: seq<nat>, ghost t: Step, output: real, expected: real)
    requires Holds(network, t) && t.w == w && expected == t.expected && output == Top(t) + t.expected
    requires SegmentsAre(network.activations[..], t, 0, Layers(w) + 1, false)
    modifies network.deltas
    ensures SegmentsAre(network.deltas[..], t, 0, Layers(w) + 1, true)
  {
    hide NetOf, Del, Act, Segment, Top;
    var layer := Layers(w);
    Store(network.deltas, w, layer, 0, output - expected);
    DelTop(t);
    assert Segment(network.deltas[..], w, layer) == Del(t, layer);
    while layer > 0
      invariant 0 <= layer <= Layers(w)
      invariant SegmentsAre(network.deltas[..], t, layer, Layers(w) + 1, true)
    {
      layer := layer - 1;
      BackwardLayer(network, w, t, layer);
    }
  }

  // ---------------------------------------------------------------- update

  lemma {:induction false} CountStep(s: Settings, importance: seq<real>, k: nat)
    requires k < |importance|
    ensures CountProtected(s, importance[..k + 1]) ==
            CountProtected(s, importance[..k]) + if Protected(s, importance[k]) then 1 else 0
  {
    assert importance[..k + 1][..k] == importance[..k];
  }

  function Cells(values: seq<real>, importance: seq<real>): (c: seq<Cell>)
    requires |values| == |importance|
    ensures |c| == |values|
  {
    seq(|values|, j requires 0 <= j < |values| => Cell(values[j], importance[j]))
  }

  /** The first `k` cells have moved to their goal, each once; the others are untouched. */
  ghost predicate CellsMoved(values: seq<real>, importance: seq<real>, start: seq<Cell>, goal: seq<Cell>, k: nat) {
    && |values| == |importance| == |start| == |goal|
    && forall j :: 0 <= j < |values| ==> Cell(values[j], importance[j]) == if j < k then goal[j] else start[j]
  }

  lemma CellsMovedOne(values: seq<real>, importance: seq<real>, start: seq<Cell>, goal: seq<Cell>, k: nat)
    requires CellsMoved(values, importance, start, goal, k) && k < |values|
    ensures CellsMoved(values[k := goal[k].value], importance[k := goal[k].importance], start, goal, k + 1)
  {
  }

  ghost function WeightGoal(s: Settings, t: Step): (c: seq<Cell>)
    requires StepFits(t)
    ensures |c| == WeightCount(t.w)
  {
    seq(WeightCount(t.w), j requires 0 <= j < WeightCount(t.w) => NewWeightCell(s, t, j))
  }

  ghost function BiasGoal(s: Settings, t: Step): (c: seq<Cell>)
    requires StepFits(t)
    ensures |c| == BiasCount(t.w)
  {
    seq(BiasCount(t.w), j requires 0 <= j < BiasCount(t.w) => NewBiasCell(s, t, j))
  }

  /** The update has come to weight place `k` and bias place `b`, counting the protected cells it met. */
  ghost predicate UpdatedTo(network: Network, s: Settings, t: Step, k: nat, b: nat, count: int)
    requires StepFits(t)
    reads network.Arrays()
  {
    && network.Shaped(t.w)
    && k <= WeightCount(t.w) && b <= BiasCount(t.w)
    && CellsMoved(network.weights[..], network.weightImportance[..],
                  Cells(t.p.weights, t.p.weightImportance), WeightGoal(s, t), k)
    && CellsMoved(network.biases[..], network.biasImportance[..],
                  Cells(t.p.biases, t.p.biasImportance), BiasGoal(s, t), b)
    && SegmentsAre(network.activations[..], t, 0, Layers(t.w) + 1, false)
    && SegmentsAre(network.deltas[..], t, 0, Layers(t.w) + 1, true)
    && count == CountProtected(s, t.p.weightImportance[..k]) + CountProtected(s, t.p.biasImportance[..b])
  }

  /** One parameter's update, slowed and counted when its importance is over the threshold. */
  method ApplyGradient(graph: Graph, values: array<real>, importance: array<real>, j: nat, gradient: real, s: Settings)
    returns (guarded: bool)
    requires values != importance && j < values.Length == importance.Length
    modifies graph`parametersProtected, values, importance
    ensures var u := Updated(s, Cell(old(values[j]), old(importance[j])), gradient);
            values[..] == old(values[..])[j := u.value] && importance[..] == old(importance[..])[j := u.importance]
    ensures guarded == Protected(s, old(importance[j]))
    ensures graph.parametersProtected == old(graph.parametersProtected) + if guarded then 1 else 0
  {
    var rate := s.rate;
    guarded := false;
    if s.plasticity && importance[j] > s.threshold {
      rate := Product(rate, s.scale);
      graph.parametersProtected := graph.parametersProtected + 1;
      guarded := true;
    }
    values[j] := values[j] - Product(rate, gradient);
    if s.plasticity {
      importance[j] := importance[j] + Abs(gradient);
    }
  }

  lemma WeightGoalAt(s: Settings, t: Step, c: Coord)
    requires StepFits(t) && ValidCoord(t.w, c)
    ensures (WeightIndexInRange(t.w, c);
             WeightGoal(s, t)[WeightIndex(t.w, c)] ==
             Updated(s, WeightCell(t, WeightIndex(t.w, c)), WeightGradient(t, c)))
  {
    hide Updated, WeightGradient, WeightIndex, Locate;
    WeightIndexInRange(t.w, c);
    LocateIsInverse(t.w, WeightIndex(t.w, c));
    WeightIndexIsInjective(t.w, c, Locate(t.w, WeightIndex(t.w, c)));
  }

  lemma BiasGoalAt(s: Settings, t: Step, u: NeuralRoles.Unit)
    requires StepFits(t) && ValidUnit(t.w, u.layer, u.output)
    ensures (BiasIndexInRange(t.w, u.layer, u.output);
             BiasGoal(s, t)[BiasIndex(t.w, u.layer, u.output)] ==
             Updated(s, BiasCell(t, BiasIndex(t.w, u.layer, u.output)), BiasGradient(t, u)))
  {
    hide Updated, BiasGradient, BiasIndex, LocateUnit;
    BiasIndexInRange(t.w, u.layer, u.output);
    var v := LocateUnit(t.w, BiasIndex(t.w, u.layer, u.output));
    BiasIndexIsInjective(t.w, u.layer, u.output, v.layer, v.output);
  }

  lemma ActReady(network: Network, s: Settings, t: Step, l: nat, k: nat, b: nat, count: int)
    requires StepFits(t) && l <= Layers(t.w) && UpdatedTo(network, s, t, k, b, count)
    ensures network.Shaped(t.w) && Segment(network.activations[..], t.w, l) == Act(t, l)
  {
    hide Segment, Del, Act, CellsMoved, WeightGoal, BiasGoal, Cells, CountProtected;
  }

  method UpdateWeight(graph: Graph, network: Network, w: seq<nat>, s: Settings, ghost t: Step, c: Coord, delta: real,
                      ghost b: nat, ghost count: int)
    returns (guarded: bool)
    requires StepFits(t) && t.w == w && ValidCoord(w, c) && delta == BiasGradient(t, NeuralRoles.Unit(c.layer, c.output))
    requires (WeightIndexInRange(w, c); UpdatedTo(network, s, t, WeightIndex(w, c), b, count))
    modifies graph`parametersProtected, network.weights, network.weightImportance
    ensures UpdatedTo(network, s, t, WeightIndex(w, c) + 1, b, count + if guarded then 1 else 0)
    ensures graph.parametersProtected == old(graph.parametersProtected) + if guarded then 1 else 0
  {
    hide WeightIndex, Del, Act, Updated, CellsMoved, Segment, WeightGoal, BiasGoal, Cells, CountProtected, SegmentsAre;
    ActReady(network, s, t, c.layer, WeightIndex(w, c), b, count);
    WeightIndexInRange(w, c);
    ghost var k := WeightIndex(w, c);
    ghost var start, goal := Cells(t.p.weights, t.p.weightImportance), WeightGoal(s, t);
    WeightGoalAt(s, t, c);
    CountStep(s, t.p.weightImportance, k);
    CellNow(network.weights[..], network.weightImportance[..], t.p.weights, t.p.weightImportance, goal, k);
    CellsMovedOne(network.weights[..], network.weightImportance[..], start, goal, k);
    var activation := Load(network.activations, w, c.layer, c.input);
    guarded := ApplyGradient(graph, network.weights, network.weightImportance, WeightIndex(w, c),
                             Product(delta, activation), s);
  }

  lemma CellNow(values: seq<real>, importance: seq<real>, v: seq<real>, i: seq<real>, goal: seq<Cell>, k: nat)
    requires |v| == |i| && k < |v| && CellsMoved(values, importance, Cells(v, i), goal, k)
    ensures |values| == |importance| == |v| && values[k] == v[k] && importance[k] == i[k]
  {
    assert Cell(values[k], importance[k]) == Cells(v, i)[k];
  }

  method UpdateBias(graph: Graph, network: Network, w: seq<nat>, s: Settings, ghost t: Step, u: NeuralRoles.Unit,
                    delta: real, ghost k: nat, ghost count: int)
    returns (guarded: bool)
    requires StepFits(t) && t.w == w && ValidUnit(w, u.layer, u.output) && delta == Del(t, u.layer + 1)[u.output]
    requires UpdatedTo(network, s, t, k, BiasIndex(w, u.layer, u.output), count)
    modifies graph`parametersProtected, network.biases, network.biasImportance
    ensures UpdatedTo(network, s, t, k, BiasIndex(w, u.layer, u.output) + 1, count + if guarded then 1 else 0)
    ensures graph.parametersProtected == old(graph.parametersProtected) + if guarded then 1 else 0
  {
    hide BiasIndex, Del, Act, Updated, CellsMoved, Segment, WeightGoal, BiasGoal, Cells, CountProtected, SegmentsAre;
    BiasIndexInRange(w, u.layer, u.output);
    ghost var b := BiasIndex(w, u.layer, u.output);
    ghost var start, goal := Cells(t.p.biases, t.p.biasImportance), BiasGoal(s, t);
    BiasGoalAt(s, t, u);
    CountStep(s, t.p.biasImportance, b);
    CellNow(network.biases[..], network.biasImportance[..], t.p.biases, t.p.biasImportance, goal, b);
    CellsMovedOne(network.biases[..], network.biasImportance[..], start, goal, b);
    guarded := ApplyGradient(graph, network.biases, network.biasImportance, BiasIndex(w, u.layer, u.output), delta, s);
  }

  /** The flat place where row `o` of layer `l` starts. */
  ghost function RowStart(w: seq<nat>, l: nat, o: nat): nat
    requires Widths(w) && l < Layers(w)
  {
    WeightOffset(w, l) + o * w[l]
  }

  lemma RowFollows(w: seq<nat>, l: nat, o: nat)
    requires Widths(w) && l < Layers(w)
    ensures RowStart(w, l, 0) == WeightOffset(w, l)
    ensures RowStart(w, l, o + 1) == RowStart(w, l, o) + w[l]
    ensures RowStart(w, l, w[l + 1]) == WeightOffset(w, l + 1)
    ensures BiasOffset(w, l + 1) == BiasOffset(w, l) + w[l + 1]
  {
    assert (o + 1) * w[l] == o * w[l] + w[l];
  }

  /** One unit's weights in input order, then its bias. */
  method UpdateRow(graph: Graph, network: Network, w: seq<nat>, s: Settings, ghost t: Step, layer: nat, o: nat,
                   ghost count: int)
    returns (any: bool, ghost n: nat)
    requires StepFits(t) && t.w == w && ValidUnit(w, layer, o)
    requires UpdatedTo(network, s, t, RowStart(w, layer, o), BiasOffset(w, layer) + o, count)
    modifies graph`parametersProtected, network.weights, network.weightImportance, network.biases, network.biasImportance
    ensures UpdatedTo(network, s, t, RowStart(w, layer, o + 1), BiasOffset(w, layer) + o + 1, count + n)
    ensures graph.parametersProtected == old(graph.parametersProtected) + n && any == (n > 0)
  {
    hide UpdatedTo, Del, Segment, WeightOffset, BiasOffset, RowStart;
    DeltaReady(network, s, t, layer + 1, RowStart(w, layer, o), BiasOffset(w, layer) + o, count);
    var delta := Load(network.deltas, w, layer + 1, o);
    any, n := false, 0;
    for i := 0 to w[layer]
      invariant UpdatedTo(network, s, t, RowStart(w, layer, o) + i, BiasOffset(w, layer) + o, count + n)
      invariant graph.parametersProtected == old(graph.parametersProtected) + n && any == (n > 0)
    {
      IndexInRow(w, layer, o, i);
      var guarded := UpdateWeight(graph, network, w, s, t, Coord(layer, o, i), delta, BiasOffset(w, layer) + o, count + n);
      any := any || guarded;
      n := n + if guarded then 1 else 0;
    }
    RowFollows(w, layer, o);
    assert BiasIndex(w, layer, o) == BiasOffset(w, layer) + o;
    var guarded := UpdateBias(graph, network, w, s, t, NeuralRoles.Unit(layer, o), delta, RowStart(w, layer, o + 1), count + n);
    any := any || guarded;
    n := n + if guarded then 1 else 0;
  }

  lemma DeltaReady(network: Network, s: Settings, t: Step, l: nat, k: nat, b: nat, count: int)
    requires StepFits(t) && l <= Layers(t.w) && UpdatedTo(network, s, t, k, b, count)
    ensures network.Shaped(t.w) && Segment(network.deltas[..], t.w, l) == Del(t, l)
  {
    hide Segment, Del, Act;
  }

  lemma IndexInRow(w: seq<nat>, l: nat, o: nat, i: nat)
    requires ValidCoord(w, Coord(l, o, i))
    ensures WeightIndex(w, Coord(l, o, i)) == RowStart(w, l, o) + i
  {
  }

  method UpdateLayer(graph: Graph, network: Network, w: seq<nat>, s: Settings, ghost t: Step, layer: nat,
                     ghost count: int)
    returns (any: bool, ghost n: nat)
    requires StepFits(t) && t.w == w && layer < Layers(w)
    requires UpdatedTo(network, s, t, WeightOffset(w, layer), BiasOffset(w, layer), count)
    modifies graph`parametersProtected, network.weights, network.weightImportance, network.biases, network.biasImportance
    ensures UpdatedTo(network, s, t, WeightOffset(w, layer + 1), BiasOffset(w, layer + 1), count + n)
    ensures graph.parametersProtected == old(graph.parametersProtected) + n && any == (n > 0)
  {
    hide UpdatedTo, RowStart, WeightOffset, BiasOffset, Segment, Act, Del;
    any, n := false, 0;
    RowFollows(w, layer, 0);
    for o := 0 to w[layer + 1]
      invariant UpdatedTo(network, s, t, RowStart(w, layer, o), BiasOffset(w, layer) + o, count + n)
      invariant graph.parametersProtected == old(graph.parametersProtected) + n && any == (n > 0)
    {
      var rowAny;
      ghost var rowCount;
      rowAny, rowCount := UpdateRow(graph, network, w, s, t, layer, o, count + n);
      any := any || rowAny;
      n := n + rowCount;
    }
  }

  /** Every weight and bias, layer by layer, each exactly once. */
  method UpdateShared(graph: Graph, network: Network, w: seq<nat>, s: Settings, ghost t: Step)
    returns (any: bool, ghost n: nat)
    requires Holds(network, t) && t.w == w
    requires SegmentsAre(network.activations[..], t, 0, Layers(w) + 1, false)
    requires SegmentsAre(network.deltas[..], t, 0, Layers(w) + 1, true)
    modifies graph`parametersProtected, network.weights, network.weightImportance, network.biases, network.biasImportance
    ensures network.Value() == TrainedParams(s, t)
    ensures SegmentsAre(network.deltas[..], t, 0, Layers(w) + 1, true)
    ensures n == CountProtected(s, t.p.weightImportance) + CountProtected(s, t.p.biasImportance)
    ensures graph.parametersProtected == old(graph.parametersProtected) + n && any == (n > 0)
  {
    hide UpdatedTo, Segment, Act, Del, TrainedParams, CountProtected, WeightOffset, BiasOffset;
    UpdateStarts(network, s, t);
    any, n := false, 0;
    for layer := 0 to Layers(w)
      invariant UpdatedTo(network, s, t, WeightOffset(w, layer), BiasOffset(w, layer), n)
      invariant graph.parametersProtected == old(graph.parametersProtected) + n && any == (n > 0)
    {
      var layerAny;
      ghost var layerCount;
      layerAny, layerCount := UpdateLayer(graph, network, w, s, t, layer, n);
      any := any || layerAny;
      n := n + layerCount;
    }
    UpdateEnds(network, s, t, n);
  }

  lemma UpdateStarts(network: Network, s: Settings, t: Step)
    requires Holds(network, t)
    requires SegmentsAre(network.activations[..], t, 0, Layers(t.w) + 1, false)
    requires SegmentsAre(network.deltas[..], t, 0, Layers(t.w) + 1, true)
    ensures UpdatedTo(network, s, t, 0, 0, 0) && WeightOffset(t.w, 0) == BiasOffset(t.w, 0) == 0
  {
    hide WeightGoal, BiasGoal, Segment, Act, Del;
    assert t.p.weightImportance[..0] == [] && t.p.biasImportance[..0] == [];
  }

  lemma UpdateEnds(network: Network, s: Settings, t: Step, n: int)
    requires StepFits(t) && UpdatedTo(network, s, t, WeightCount(t.w), BiasCount(t.w), n)
    ensures network.Value() == TrainedParams(s, t)
    ensures SegmentsAre(network.deltas[..], t, 0, Layers(t.w) + 1, true)
    ensures n == CountProtected(s, t.p.weightImportance) + CountProtected(s, t.p.biasImportance)
  {
    hide Segment, Act, Del, NewWeightCell, NewBiasCell, CountProtected, Cells;
    var p, q := network.Value(), TrainedParams(s, t);
    assert t.p.weightImportance[..WeightCount(t.w)] == t.p.weightImportance;
    assert t.p.biasImportance[..BiasCount(t.w)] == t.p.biasImportance;
    assert forall j :: 0 <= j < |p.weights| ==> Cell(p.weights[j], p.weightImportance[j]) == WeightGoal(s, t)[j];
    assert forall j :: 0 <= j < |p.biases| ==> Cell(p.biases[j], p.biasImportance[j]) == BiasGoal(s, t)[j];
    assert p.weights == q.weights && p.biases == q.biases;
    assert p.weightImportance == q.weightImportance && p.biasImportance == q.biasImportance;
  }

  // ---------------------------------------------------------------- the shared embeddings

  method ApplyToEmbedding(graph: Graph, node: Node, i: nat, gradient: real, s: Settings) returns (guarded: bool)
    requires i < |node.embedding| == |node.importance|
    modifies graph`parametersProtected, node
    ensures var u := Updated(s, old(EmbeddingCell(NodeValue(node), i)), gradient);
            node.embedding == old(node.embedding)[i := u.value] && node.importance == old(node.importance)[i := u.importance]
    ensures guarded == Protected(s, old(node.importance[i]))
    ensures graph.parametersProtected == old(graph.parametersProtected) + if guarded then 1 else 0
  {
    var rate := s.rate;
    guarded := false;
    if s.plasticity && node.importance[i] > s.threshold {
      rate := Product(rate, s.scale);
      graph.parametersProtected := graph.parametersProtected + 1;
      guarded := true;
    }
    node.embedding := node.embedding[i := node.embedding[i] - Product(rate, gradient)];
    if s.plasticity {
      node.importance := node.importance[i := node.importance[i] + Abs(gradient)];
    }
  }

  /** The first `n` dimensions of a node hold their new cells, the rest their old ones. */
  ghost predicate DimensionsMoved(now: Vectors, before: Vectors, after: Vectors, n: nat) {
    && |now.embedding| == |now.importance| == |before.embedding| == |before.importance|
    && |after.embedding| == |after.importance| == |now.embedding|
    && forall j :: 0 <= j < |now.embedding| ==> EmbeddingCell(now, j) == EmbeddingCell(if j < n then after else before, j)
  }

  lemma DimensionMoved(now: Vectors, before: Vectors, after: Vectors, i: nat, later: Vectors)
    requires DimensionsMoved(now, before, after, i) && i < |now.embedding|
    requires later == Vectors(now.embedding[i := after.embedding[i]], now.importance[i := after.importance[i]])
    ensures DimensionsMoved(later, before, after, i + 1)
  {
    forall j | 0 <= j < |later.embedding|
      ensures EmbeddingCell(later, j) == EmbeddingCell(if j < i + 1 then after else before, j)
    {
      if j != i {
        assert EmbeddingCell(now, j) == EmbeddingCell(if j < i then after else before, j);
      }
    }
  }

  lemma DimensionsDone(now: Vectors, before: Vectors, after: Vectors)
    requires DimensionsMoved(now, before, after, |before.embedding|)
    ensures now == after
  {
    forall j | 0 <= j < |now.embedding|
      ensures now.embedding[j] == after.embedding[j] && now.importance[j] == after.importance[j]
    {
      assert EmbeddingCell(now, j) == EmbeddingCell(after, j);
    }
  }

  /** Both half-updates of one embedding dimension, source node first. */
  method UpdateDimension(graph: Graph, s: Settings, source: Node, target: Node, i: nat, first: real, second: real)
    returns (any: bool, ghost n: nat)
    requires i < |source.embedding| == |source.importance| && i < |target.embedding| == |target.importance|
    modifies graph`parametersProtected, source, target
    ensures var c := Updated(s, old(EmbeddingCell(NodeValue(source), i)), first);
            var d := if source == target then Updated(s, c, second) else c;
            && NodeValue(source) == Vectors(old(source.embedding)[i := d.value], old(source.importance)[i := d.importance])
            && n == (if Protected(s, old(source.importance[i])) then 1 else 0) +
                    (if Protected(s, if source == target then c.importance else old(target.importance[i])) then 1 else 0)
    ensures source != target ==>
              var d := Updated(s, old(EmbeddingCell(NodeValue(target), i)), second);
              NodeValue(target) == Vectors(old(target.embedding)[i := d.value], old(target.importance)[i := d.importance])
    ensures graph.parametersProtected == old(graph.parametersProtected) + n && any == (n > 0)
  {
    hide Updated, Protected;
    ghost var e, m := source.embedding, source.importance;
    var guarded := ApplyToEmbedding(graph, source, i, first, s);
    any := guarded;
    n := if guarded then 1 else 0;
    ghost var c := EmbeddingCell(NodeValue(source), i);
    guarded := ApplyToEmbedding(graph, target, i, second, s);
    any := any || guarded;
    n := n + if guarded then 1 else 0;
    if source == target {
      ghost var d := Updated(s, c, second);
      assert source.embedding == e[i := d.value] && source.importance == m[i := d.importance];
    }
  }

  lemma EmbeddingGoals(s: Settings, t: Step, a: Vectors, b: Vectors, same: bool)
    requires StepFits(t) && VectorsFitStep(t, a) && VectorsFitStep(t, b)
    ensures var a', b' := TrainedSource(s, t, a, same), TrainedTarget(s, t, b);
            |a'.embedding| == |a'.importance| == |a.embedding| && |b'.embedding| == |b'.importance| == |b.embedding|
    ensures EmbeddingProtected(s, t, a, b, same, 0) == 0
  {
  }

  lemma EmbeddingGoal(s: Settings, t: Step, a: Vectors, b: Vectors, same: bool, i: nat)
    requires StepFits(t) && VectorsFitStep(t, a) && VectorsFitStep(t, b) && i < |a.embedding|
    ensures EmbeddingCell(TrainedSource(s, t, a, same), i) == NewSourceCell(s, t, a, same, i)
    ensures EmbeddingCell(TrainedTarget(s, t, b), i) == NewTargetCell(s, t, b, i)
    ensures EmbeddingProtected(s, t, a, b, same, i + 1) ==
            EmbeddingProtected(s, t, a, b, same, i) + (if Protected(s, a.importance[i]) then 1 else 0)
            + (if Protected(s, TargetImportance(s, t, a, b, same, i)) then 1 else 0)
  {
    hide Updated, Protected, Del;
  }

  method UpdateEmbeddings(graph: Graph, network: Network, w: seq<nat>, s: Settings, ghost t: Step,
                          source: Node, target: Node)
    returns (any: bool, ghost n: nat)
    requires StepFits(t) && t.w == w && network.Shaped(w)
    requires SegmentsAre(network.deltas[..], t, 0, Layers(w) + 1, true)
    requires VectorsFitStep(t, NodeValue(source)) && VectorsFitStep(t, NodeValue(target))
    modifies graph`parametersProtected, source, target
    ensures NodeValue(source) == TrainedSource(s, t, old(NodeValue(source)), source == target)
    ensures source != target ==> NodeValue(target) == TrainedTarget(s, t, old(NodeValue(target)))
    ensures n == EmbeddingProtected(s, t, old(NodeValue(source)), old(NodeValue(target)), source == target,
                                    old(|source.embedding|))
    ensures graph.parametersProtected == old(graph.parametersProtected) + n && any == (n > 0)
  {
    hide Segment, Del, Act, Updated, Protected, DimensionsMoved, TrainedSource, TrainedTarget, EmbeddingProtected;
    any, n := false, 0;
    ghost var same := source == target;
    ghost var a, b := NodeValue(source), NodeValue(target);
    ghost var a', b' := TrainedSource(s, t, a, same), TrainedTarget(s, t, b);
    var dim := |source.embedding|;
    EmbeddingGoals(s, t, a, b, same);
    DimensionsStart(a, a');
    DimensionsStart(b, b');
    for i := 0 to dim
      invariant DimensionsMoved(NodeValue(source), a, a', i)
      invariant !same ==> DimensionsMoved(NodeValue(target), b, b', i)
      invariant n == EmbeddingProtected(s, t, a, b, same, i)
      invariant graph.parametersProtected == old(graph.parametersProtected) + n && any == (n > 0)
    {
      ghost var x, y := NodeValue(source), NodeValue(target);
      EmbeddingGoal(s, t, a, b, same, i);
      DimensionsAt(x, a, a', i);
      if !same {
        DimensionsAt(y, b, b', i);
      }
      assert Segment(network.deltas[..], w, 0) == Del(t, 0);
      var first := Load(network.deltas, w, 0, i);
      var second := Load(network.deltas, w, 0, dim + i);
      var pairAny;
      ghost var pairCount;
      pairAny, pairCount := UpdateDimension(graph, s, source, target, i, first, second);
      any := any || pairAny;
      n := n + pairCount;
      DimensionMoved(x, a, a', i, NodeValue(source));
      if !same {
        DimensionMoved(y, b, b', i, NodeValue(target));
      }
    }
    DimensionsDone(NodeValue(source), a, a');
    if !same {
      DimensionsDone(NodeValue(target), b, b');
    }
  }

  lemma DimensionsStart(before: Vectors, after: Vectors)
    requires |before.embedding| == |before.importance| == |after.embedding| == |after.importance|
    ensures DimensionsMoved(before, before, after, 0)
  {
  }

  lemma DimensionsAt(now: Vectors, before: Vectors, after: Vectors, i: nat)
    requires DimensionsMoved(now, before, after, i) && i < |before.embedding|
    ensures |now.embedding| == |now.importance| == |before.embedding| == |before.importance|
    ensures now.embedding[i] == before.embedding[i] && now.importance[i] == before.importance[i]
  {
    assert EmbeddingCell(now, i) == EmbeddingCell(before, i);
  }

  // ---------------------------------------------------------------- one training step

  /** The raw input: the source embedding, then the target embedding. */
  method PairInput(network: Network, w: seq<nat>, source: Node, target: Node)
    requires Widths(w) && network.Shaped(w) && |source.embedding| == |target.embedding|
    requires w[0] == 2 * |source.embedding|
    modifies network.activations
    ensures Segment(network.activations[..], w, 0) == source.embedding + target.embedding
  {
    hide Segment;
    var dim := |source.embedding|;
    ghost var goal := source.embedding + target.embedding;
    for i := 0 to dim
      invariant var now := Segment(network.activations[..], w, 0);
                now[..i] == goal[..i] && now[dim..dim + i] == goal[dim..dim + i]
    {
      ghost var now := Segment(network.activations[..], w, 0);
      StorePair(network.activations, w, i, dim, source.embedding[i], target.embedding[i]);
      ghost var later := Segment(network.activations[..], w, 0);
      PairStep(now, later, goal, i);
    }
    PairDone(Segment(network.activations[..], w, 0), goal);
  }

  /** Store an entry of each half of the input segment. */
  method StorePair(a: array<real>, w: seq<nat>, i: nat, dim: nat, first: real, second: real)
    requires Widths(w) && a.Length == ActivationCount(w) && w[0] == 2 * dim && i < dim
    modifies a
    ensures Segment(a[..], w, 0) == old(Segment(a[..], w, 0))[i := first][dim + i := second]
  {
    hide Segment;
    Store(a, w, 0, i, first);
    Store(a, w, 0, dim + i, second);
  }

  /** The `i`th entry of each half is written. */
  lemma PairStep(now: Vector, later: Vector, goal: Vector, i: nat)
    requires |now| == |goal| && |goal| % 2 == 0 && i < |goal| / 2
    requires var dim := |goal| / 2; now[..i] == goal[..i] && now[dim..dim + i] == goal[dim..dim + i]
                                    && later == now[i := goal[i]][dim + i := goal[dim + i]]
    ensures var dim := |goal| / 2; later[..i + 1] == goal[..i + 1] && later[dim..dim + i + 1] == goal[dim..dim + i + 1]
  {
    var dim := |goal| / 2;
    assert later[..i + 1] == now[..i] + [goal[i]] && goal[..i + 1] == goal[..i] + [goal[i]];
    assert later[dim..dim + i + 1] == now[dim..dim + i] + [goal[dim + i]];
    assert goal[dim..dim + i + 1] == goal[dim..dim + i] + [goal[dim + i]];
  }

  lemma PairDone(now: Vector, goal: Vector)
    requires |now| == |goal| && |goal| % 2 == 0
    requires var dim := |goal| / 2; now[..dim] == goal[..dim] && now[dim..dim + dim] == goal[dim..dim + dim]
    ensures now == goal
  {
    var dim := |goal| / 2;
    assert now == now[..dim] + now[dim..dim + dim];
    assert goal == goal[..dim] + goal[dim..dim + dim];
  }

  ghost function StepOf(graph: Graph, source: nat, target: nat, expected: real, f: Math): (t: Step)
    requires graph.Valid() && source < |graph.nodes| && target < |graph.nodes|
    reads graph, graph.nodes, graph.network.Arrays()
    ensures StepFits(t)
    ensures VectorsFitStep(t, NodeValue(graph.nodes[source])) && VectorsFitStep(t, NodeValue(graph.nodes[target]))
  {
    WellShapedWidths(graph.architecture);
    Step(f, WidthsOf(graph.architecture), graph.network.Value(),
         Pair(NodeValue(graph.nodes[source]), NodeValue(graph.nodes[target])), expected)
  }

  /** Forward and backward: afterwards both buffers hold the step's values and nothing has moved. */
  method ComputeDeltas(network: Network, w: seq<nat>, f: Math, source: Node, target: Node, expected: real,
                       ghost t: Step)
    returns (output: real)
    requires Holds(network, t) && t.w == w && t.f == f && t.expected == expected
    requires VectorsFitStep(t, NodeValue(source)) && VectorsFitStep(t, NodeValue(target))
    requires t.x == Pair(NodeValue(source), NodeValue(target))
    modifies network.activations, network.deltas
    ensures Holds(network, t)
    ensures SegmentsAre(network.activations[..], t, 0, Layers(w) + 1, false)
    ensures SegmentsAre(network.deltas[..], t, 0, Layers(w) + 1, true)
    ensures output == Top(t) + expected
  {
    hide Segment, Act, Del, Top;
    PairInput(network, w, source, target);
    output := Forward(network, w, f, t);
    Backward(network, w, t, output, expected);
  }

  /** All updates of a step, then the step counters. */
  method UpdateAll(graph: Graph, network: Network, w: seq<nat>, s: Settings, source: Node, target: Node, ghost t: Step)
    requires Holds(network, t) && t.w == w
    requires SegmentsAre(network.activations[..], t, 0, Layers(w) + 1, false)
    requires SegmentsAre(network.deltas[..], t, 0, Layers(w) + 1, true)
    requires VectorsFitStep(t, NodeValue(source)) && VectorsFitStep(t, NodeValue(target))
    modifies graph`stepsTotal, graph`stepsProtected, graph`parametersProtected, source, target
    modifies network.weights, network.weightImportance, network.biases, network.biasImportance
    ensures network.Value() == TrainedParams(s, t)
    ensures NodeValue(source) == TrainedSource(s, t, old(NodeValue(source)), source == target)
    ensures source != target ==> NodeValue(target) == TrainedTarget(s, t, old(NodeValue(target)))
    ensures var count := TotalProtected(s, t, old(NodeValue(source)), old(NodeValue(target)), source == target);
            && graph.parametersProtected == old(graph.parametersProtected) + count
            && graph.stepsTotal == old(graph.stepsTotal) + (if s.plasticity then 1 else 0)
            && graph.stepsProtected == old(graph.stepsProtected) + (if s.plasticity && count > 0 then 1 else 0)
  {
    hide Act, Del, TrainedParams, TrainedSource, TrainedTarget, EmbeddingProtected, CountProtected, SegmentsAre;
    if s.plasticity {
      graph.stepsTotal := graph.stepsTotal + 1;
    }
    var any, embeddingAny;
    ghost var n, m;
    any, n := UpdateShared(graph, network, w, s, t);
    embeddingAny, m := UpdateEmbeddings(graph, network, w, s, t, source, target);
    if s.plasticity && (any || embeddingAny) {
      graph.stepsProtected := graph.stepsProtected + 1;
    }
  }

  /**
   One online training step. Every shared parameter moves once, by a gradient taken before anything
   moved; the two embeddings receive their half-updates, in sequence when they are one node's; the
   counters record exactly the protected updates; nothing else changes.
   */
  method Train(graph: Graph, source: nat, target: nat, expected: real, f: Math) returns (loss: real)
    requires graph.Valid() && source < |graph.nodes| && target < |graph.nodes|
    modifies graph`stepsTotal, graph`stepsProtected, graph`parametersProtected
    modifies graph.network.Arrays(), graph.nodes[source], graph.nodes[target]
    ensures graph.Valid()
    ensures var t, s := old(StepOf(graph, source, target, expected, f)), SettingsOf(graph.config);
            var a, b := old(NodeValue(graph.nodes[source])), old(NodeValue(graph.nodes[target]));
            var count := TotalProtected(s, t, a, b, source == target);
            && graph.network.Value() == TrainedParams(s, t)
            && NodeValue(graph.nodes[source]) == TrainedSource(s, t, a, source == target)
            && (source != target ==> NodeValue(graph.nodes[target]) == TrainedTarget(s, t, b))
            && graph.parametersProtected == old(graph.parametersProtected) + count
            && graph.stepsTotal == old(graph.stepsTotal) + (if s.plasticity then 1 else 0)
            && graph.stepsProtected == old(graph.stepsProtected) + (if s.plasticity && count > 0 then 1 else 0)
            && loss == Loss(f, Top(t) + expected, expected)
  {
    hide Act, Del, Top, TrainedParams, TrainedSource, TrainedTarget, TotalProtected, SegmentsAre;
    hide WidthsOf, Accepts, StepFits, Pair, Loss;
    graph.ValidShaped();
    var network, w := graph.network, WidthsOf(graph.architecture);
    ghost var t := StepOf(graph, source, target, expected, f);
    var s := SettingsOf(graph.config);
    var sourceNode, targetNode := graph.nodes[source], graph.nodes[target];
    ghost var a, b := NodeValue(sourceNode), NodeValue(targetNode);
    var output := ComputeDeltas(network, w, f, sourceNode, targetNode, expected, t);
    loss := Loss(f, output, expected);
    UpdateAll(graph, network, w, s, sourceNode, targetNode, t);
    TrainedVectorsFit(s, t, a, b, source == target);
  }

  lemma TrainedVectorsFit(s: Settings, t: Step, a: Vectors, b: Vectors, same: bool)
    requires StepFits(t) && VectorsFitStep(t, a) && VectorsFitStep(t, b)
    ensures VectorsFit(|a.embedding|, TrainedSource(s, t, a, same))
    ensures VectorsFit(|b.embedding|, TrainedTarget(s, t, b))
  {
  }
}
