/**
 The scorer's forward pass and back-propagation as mathematics on layers, and the proof that the
 deltas are the adjoints of the forward pass: paired with any direction in parameter and input
 space, the gradient gives the directional derivative that dual numbers compute.
 */
module Backprop {
  import opened LinearAlgebra
  import opened NeuralLayout

  /** The transcendental functions, left uninterpreted. */
  datatype Math = Math(tanh: real -> real, sigmoid: real -> real, ln: real -> real)

  datatype Layer = Layer(rows: seq<Vector>, bias: Vector)

  predicate NetFits(ls: seq<Layer>, w: seq<nat>) {
    && Widths(w) && |ls| == Layers(w) && w[Layers(w)] == 1
    && (forall l :: 0 <= l < |ls| ==> |ls[l].rows| == |ls[l].bias|)
    && forall l :: 0 <= l < |ls| ==> LayerFits(ls[l], w[l], w[l + 1])
  }

  predicate LayerFits(layer: Layer, inputs: nat, outputs: nat) {
    |layer.rows| == |layer.bias| == outputs && Matrix(layer.rows, inputs)
  }

  function Map(g: real -> real, v: Vector): (r: Vector)
    ensures |r| == |v|
  {
    seq(|v|, i requires 0 <= i < |v| => g(v[i]))
  }

  // ---------------------------------------------------------------- forward

  function Pre(layer: Layer, x: Vector): (z: Vector)
    requires LayerFits(layer, |x|, |layer.bias|)
    ensures |z| == |layer.bias|
  {
    Add(layer.bias, MatVec(layer.rows, x))
  }

  function Squash(f: Math, final: bool): real -> real {
    if final then f.sigmoid else f.tanh
  }

  /** The activation vector entering layer `l`; the last one is the network's output. */
  function Activation(f: Math, ls: seq<Layer>, w: seq<nat>, x: Vector, l: nat): (a: Vector)
    requires NetFits(ls, w) && |x| == w[0] && l <= |ls|
    ensures |a| == w[l]
  {
    if l == 0 then x else
      assert LayerFits(ls[l - 1], w[l - 1], w[l - 1 + 1]);
      Map(Squash(f, l == |ls|), Pre(ls[l - 1], Activation(f, ls, w, x, l - 1)))
  }

  function Output(f: Math, ls: seq<Layer>, w: seq<nat>, x: Vector): real
    requires NetFits(ls, w) && |x| == w[0]
  {
    Activation(f, ls, w, x, |ls|)[0]
  }

  // ---------------------------------------------------------------- backward

  function Slope(a: Vector): (s: Vector)
    ensures |s| == |a|
  {
    seq(|a|, i requires 0 <= i < |a| => 1.0 - Product(a[i], a[i]))
  }

  /** The delta vector beside activation `l`, given the delta of the scalar output. */
  function Delta(f: Math, ls: seq<Layer>, w: seq<nat>, x: Vector, top: real, l: nat): (d: Vector)
    requires NetFits(ls, w) && |x| == w[0] && l <= |ls|
    ensures |d| == w[l]
    decreases |ls| - l
  {
    if l == |ls| then [top] else
      var g := VecMat(Delta(f, ls, w, x, top, l + 1), ls[l].rows, w[l]);
      if l == 0 then g else Times(g, Slope(Activation(f, ls, w, x, l)))
  }

  // ---------------------------------------------------------------- dual numbers

  datatype Dual = Dual(v: real, e: real)

  function DualAdd(a: Dual, b: Dual): Dual {
    Dual(a.v + b.v, a.e + b.e)
  }

  function DualProduct(a: Dual, b: Dual): Dual {
    Dual(Product(a.v, b.v), Product(a.e, b.v) + Product(a.v, b.e))
  }

  /** tanh on dual numbers, by tanh' = 1 - tanh^2. */
  function DualTanh(f: Math, a: Dual): Dual {
    Dual(f.tanh(a.v), Product(a.e, 1.0 - Product(f.tanh(a.v), f.tanh(a.v))))
  }

  function DualDot(a: seq<Dual>, b: seq<Dual>): Dual
    requires |a| == |b|
  {
    if |a| == 0 then Dual(0.0, 0.0) else
      DualAdd(DualDot(a[..|a| - 1], b[..|b| - 1]), DualProduct(a[|a| - 1], b[|b| - 1]))
  }

  function Values(a: seq<Dual>): (v: Vector)
    ensures |v| == |a|
  {
    seq(|a|, i requires 0 <= i < |a| => a[i].v)
  }

  function Tangents(a: seq<Dual>): (v: Vector)
    ensures |v| == |a|
  {
    seq(|a|, i requires 0 <= i < |a| => a[i].e)
  }

  function RowValues(rows: seq<seq<Dual>>): (r: seq<Vector>)
    ensures |r| == |rows|
  {
    seq(|rows|, o requires 0 <= o < |rows| => Values(rows[o]))
  }

  function RowTangents(rows: seq<seq<Dual>>): (r: seq<Vector>)
    ensures |r| == |rows|
  {
    seq(|rows|, o requires 0 <= o < |rows| => Tangents(rows[o]))
  }

  /** Parameters carrying a direction. */
  datatype DualLayer = DualLayer(rows: seq<seq<Dual>>, bias: seq<Dual>)

  function ValueLayer(layer: DualLayer): Layer {
    Layer(RowValues(layer.rows), Values(layer.bias))
  }

  /** The dual network carries this network's values. */
  predicate Carries(ds: seq<DualLayer>, ls: seq<Layer>) {
    |ds| == |ls| && forall l :: 0 <= l < |ls| ==> ValueLayer(ds[l]) == ls[l]
  }

  function DualPre(layer: DualLayer, x: seq<Dual>): (z: seq<Dual>)
    requires |layer.rows| == |layer.bias| && forall o :: 0 <= o < |layer.rows| ==> |layer.rows[o]| == |x|
    ensures |z| == |layer.bias|
  {
    seq(|layer.bias|, o requires 0 <= o < |layer.bias| => DualAdd(layer.bias[o], DualDot(layer.rows[o], x)))
  }

  predicate DualFits(ds: seq<DualLayer>, w: seq<nat>) {
    && Widths(w) && |ds| == Layers(w)
    && forall l :: 0 <= l < |ds| ==>
         |ds[l].rows| == |ds[l].bias| == w[l + 1] &&
         forall o :: 0 <= o < |ds[l].rows| ==> |ds[l].rows[o]| == w[l]
  }

  /** The same forward pass over dual numbers, up to the activations entering layer `l`. */
  function DualActivation(f: Math, ds: seq<DualLayer>, w: seq<nat>, x: seq<Dual>, l: nat): (a: seq<Dual>)
    requires DualFits(ds, w) && |x| == w[0] && l < |ds|
    ensures |a| == w[l]
  {
    if l == 0 then x else
      var z := DualPre(ds[l - 1], DualActivation(f, ds, w, x, l - 1));
      seq(|z|, i requires 0 <= i < |z| => DualTanh(f, z[i]))
  }

  /** The dual value of the scalar output before its sigmoid. */
  function DualOutput(f: Math, ds: seq<DualLayer>, w: seq<nat>, x: seq<Dual>): Dual
    requires DualFits(ds, w) && w[Layers(w)] == 1 && |x| == w[0]
  {
    DualPre(ds[|ds| - 1], DualActivation(f, ds, w, x, |ds| - 1))[0]
  }

  lemma {:induction false} DualDotParts(a: seq<Dual>, b: seq<Dual>)
    requires |a| == |b|
    ensures DualDot(a, b).v == Dot(Values(a), Values(b))
    ensures DualDot(a, b).e == Dot(Tangents(a), Values(b)) + Dot(Values(a), Tangents(b))
  {
    hide Product;
    var n := |a| - 1;
    if n >= 0 {
      DualDotParts(a[..n], b[..n]);
      assert Values(a)[..n] == Values(a[..n]) && Values(b)[..n] == Values(b[..n]);
      assert Tangents(a)[..n] == Tangents(a[..n]) && Tangents(b)[..n] == Tangents(b[..n]);
    }
  }

  lemma DualPreParts(layer: DualLayer, x: seq<Dual>)
    requires |layer.rows| == |layer.bias| && forall o :: 0 <= o < |layer.rows| ==> |layer.rows[o]| == |x|
    ensures Matrix(RowValues(layer.rows), |x|) && Matrix(RowTangents(layer.rows), |x|)
    ensures Values(DualPre(layer, x)) == Pre(ValueLayer(layer), Values(x))
    ensures Tangents(DualPre(layer, x)) ==
            Add(Add(Tangents(layer.bias), MatVec(RowTangents(layer.rows), Values(x))),
                MatVec(RowValues(layer.rows), Tangents(x)))
  {
    hide DualDot, Dot;
    forall o | 0 <= o < |layer.rows|
      ensures Values(DualPre(layer, x))[o] == Pre(ValueLayer(layer), Values(x))[o]
      ensures Tangents(DualPre(layer, x))[o] ==
              Add(Add(Tangents(layer.bias), MatVec(RowTangents(layer.rows), Values(x))),
                  MatVec(RowValues(layer.rows), Tangents(x)))[o]
    {
      DualDotParts(layer.rows[o], x);
    }
  }

  /** Running over dual numbers computes the ordinary activations in the value part. */
  lemma {:induction false} DualValues(f: Math, ds: seq<DualLayer>, ls: seq<Layer>, w: seq<nat>, x: seq<Dual>, l: nat)
    requires DualFits(ds, w) && NetFits(ls, w) && Carries(ds, ls) && |x| == w[0] && l < |ds|
    ensures Values(DualActivation(f, ds, w, x, l)) == Activation(f, ls, w, Values(x), l)
  {
    if l > 0 {
      DualValues(f, ds, ls, w, x, l - 1);
      DualPreParts(ds[l - 1], DualActivation(f, ds, w, x, l - 1));
      hide DualPre, Pre;
      var z := DualPre(ds[l - 1], DualActivation(f, ds, w, x, l - 1));
      assert ValueLayer(ds[l - 1]) == ls[l - 1];
      assert forall i :: 0 <= i < |z| ==> Values(z)[i] == z[i].v;
    }
  }

  /** The tangent of an activation is the tangent before the tanh times the slope. */
  lemma DualTangents(f: Math, ds: seq<DualLayer>, ls: seq<Layer>, w: seq<nat>, x: seq<Dual>, l: nat)
    requires DualFits(ds, w) && NetFits(ls, w) && Carries(ds, ls) && |x| == w[0] && 0 < l < |ds|
    ensures var z := DualPre(ds[l - 1], DualActivation(f, ds, w, x, l - 1));
            Tangents(DualActivation(f, ds, w, x, l)) ==
            Times(Slope(Activation(f, ls, w, Values(x), l)), Tangents(z))
  {
    hide DualPre, Product, Activation;
    DualValues(f, ds, ls, w, x, l);
    var z := DualPre(ds[l - 1], DualActivation(f, ds, w, x, l - 1));
    var a, b := DualActivation(f, ds, w, x, l), Activation(f, ls, w, Values(x), l);
    forall i | 0 <= i < |z|
      ensures Tangents(a)[i] == Times(Slope(b), Tangents(z))[i]
    {
      assert Values(a)[i] == a[i].v == f.tanh(z[i].v);
      ProductCommutes(z[i].e, 1.0 - Product(b[i], b[i]));
    }
  }

  lemma ProductCommutes(x: real, y: real)
    ensures Product(x, y) == Product(y, x)
  {
  }

  // ---------------------------------------------------------------- the gradient

  /** The gradient of each weight paired with the direction of that weight, over one layer. */
  function PairWeights(d: Vector, a: Vector, directions: seq<Vector>): real
    requires |d| == |directions| && Matrix(directions, |a|)
  {
    if |d| == 0 then 0.0 else
      var n := |d| - 1;
      PairWeights(d[..n], a, directions[..n]) + Dot(Scale(d[n], a), directions[n])
  }

  lemma {:induction false} PairWeightsIsDot(d: Vector, a: Vector, directions: seq<Vector>)
    requires |d| == |directions| && Matrix(directions, |a|)
    ensures PairWeights(d, a, directions) == Dot(d, MatVec(directions, a))
  {
    var n := |d| - 1;
    if n >= 0 {
      PairWeightsIsDot(d[..n], a, directions[..n]);
      assert MatVec(directions, a)[..n] == MatVec(directions[..n], a);
      DotScale(d[n], a, directions[n]);
      DotCommutes(a, directions[n]);
    }
  }

  /** What layer `l` contributes: its bias gradients and weight gradients paired with the direction. */
  function LayerPairing(f: Math, ds: seq<DualLayer>, ls: seq<Layer>, w: seq<nat>, x: Vector, top: real, l: nat): real
    requires DualFits(ds, w) && NetFits(ls, w) && Carries(ds, ls) && |x| == w[0] && l < |ls|
  {
    var d := Delta(f, ls, w, x, top, l + 1);
    Dot(d, Tangents(ds[l].bias)) + PairWeights(d, Activation(f, ls, w, x, l), RowTangents(ds[l].rows))
  }

  /** The whole gradient paired with the whole direction, through layer `n - 1`. */
  function Pairing(f: Math, ds: seq<DualLayer>, ls: seq<Layer>, w: seq<nat>, x: seq<Dual>, top: real, n: nat): real
    requires DualFits(ds, w) && NetFits(ls, w) && Carries(ds, ls) && |x| == w[0] && n <= |ls|
  {
    if n == 0 then Dot(Delta(f, ls, w, Values(x), top, 0), Tangents(x))
    else Pairing(f, ds, ls, w, x, top, n - 1) + LayerPairing(f, ds, ls, w, Values(x), top, n - 1)
  }

  /** Pairing with the tangents before the squashing splits into this layer's gradients and the rest. */
  lemma LayerSplit(d: Vector, layer: DualLayer, value: Layer, a: seq<Dual>)
    requires |layer.rows| == |layer.bias| && forall o :: 0 <= o < |layer.rows| ==> |layer.rows[o]| == |a|
    requires ValueLayer(layer) == value && |d| == |layer.bias|
    ensures Matrix(RowTangents(layer.rows), |a|) && Matrix(value.rows, |a|)
    ensures Dot(d, Tangents(DualPre(layer, a))) ==
            Dot(d, Tangents(layer.bias)) + PairWeights(d, Values(a), RowTangents(layer.rows)) +
            Dot(VecMat(d, value.rows, |a|), Tangents(a))
  {
    hide Dot, DualPre, MatVec, Add, VecMat, PairWeights;
    var dBias, dRows, act := Tangents(layer.bias), RowTangents(layer.rows), Values(a);
    DualPreParts(layer, a);
    DotAdd(d, Add(dBias, MatVec(dRows, act)), MatVec(value.rows, Tangents(a)));
    DotAdd(d, dBias, MatVec(dRows, act));
    PairWeightsIsDot(d, act, dRows);
    Adjoint(d, value.rows, Tangents(a));
  }

  /** At every depth, the deltas paired with the tangents equal all gradients below paired with the direction. */
  lemma {:induction false} PairingAtDepth(f: Math, ds: seq<DualLayer>, ls: seq<Layer>, w: seq<nat>,
                                          x: seq<Dual>, top: real, l: nat)
    requires DualFits(ds, w) && NetFits(ls, w) && Carries(ds, ls) && |x| == w[0] && l < |ls|
    ensures Dot(Delta(f, ls, w, Values(x), top, l + 1), Tangents(DualPre(ds[l], DualActivation(f, ds, w, x, l))))
            == Pairing(f, ds, ls, w, x, top, l + 1)
    decreases l, 1
  {
    hide Dot, DualPre, VecMat, PairWeights, Delta, Activation, DualActivation;
    var a := DualActivation(f, ds, w, x, l);
    var d := Delta(f, ls, w, Values(x), top, l + 1);
    DualValues(f, ds, ls, w, x, l);
    LayerSplit(d, ds[l], ls[l], a);
    PulledBack(f, ds, ls, w, x, top, l);
  }

  /** Pulling the deltas back through layer `l` meets the tangents of the layer below. */
  lemma PulledBack(f: Math, ds: seq<DualLayer>, ls: seq<Layer>, w: seq<nat>, x: seq<Dual>, top: real, l: nat)
    requires DualFits(ds, w) && NetFits(ls, w) && Carries(ds, ls) && |x| == w[0] && l < |ls|
    ensures Dot(VecMat(Delta(f, ls, w, Values(x), top, l + 1), ls[l].rows, w[l]),
                Tangents(DualActivation(f, ds, w, x, l))) == Pairing(f, ds, ls, w, x, top, l)
    decreases l, 0
  {
    hide Dot, DualPre, VecMat, Times, Slope, Activation;
    if l > 0 {
      var g := VecMat(Delta(f, ls, w, Values(x), top, l + 1), ls[l].rows, w[l]);
      var z := DualPre(ds[l - 1], DualActivation(f, ds, w, x, l - 1));
      DualTangents(f, ds, ls, w, x, l);
      DotTimes(g, Slope(Activation(f, ls, w, Values(x), l)), Tangents(z));
      PairingAtDepth(f, ds, ls, w, x, top, l - 1);
    }
  }

  /**
   The back-propagated gradient, paired with any direction in weights, biases and inputs, is the
   output delta times the forward-mode derivative of the pre-sigmoid output in that direction.
   */
  lemma GradientIsAdjoint(f: Math, ds: seq<DualLayer>, ls: seq<Layer>, w: seq<nat>, x: seq<Dual>, top: real)
    requires DualFits(ds, w) && NetFits(ls, w) && Carries(ds, ls) && |x| == w[0]
    ensures Pairing(f, ds, ls, w, x, top, |ls|) == top * DualOutput(f, ds, w, x).e
  {
    hide Dot, DualPre, VecMat, Times, Slope, Activation, DualActivation, Pairing;
    var n := |ls| - 1;
    PairingAtDepth(f, ds, ls, w, x, top, n);
    var z := DualPre(ds[n], DualActivation(f, ds, w, x, n));
    assert Delta(f, ls, w, Values(x), top, |ls|) == [top];
    assert Tangents(z) == [z[0].e];
    DotOfOne(top, z[0].e);
  }

  /**
   The output is the sigmoid of what the forward-mode run computes before it: every layer but the last
   is squashed by tanh, the last by the sigmoid.
   */
  lemma OutputIsSigmoid(f: Math, ds: seq<DualLayer>, ls: seq<Layer>, w: seq<nat>, x: seq<Dual>)
    requires DualFits(ds, w) && NetFits(ls, w) && Carries(ds, ls) && |x| == w[0]
    ensures Output(f, ls, w, Values(x)) == f.sigmoid(DualOutput(f, ds, w, x).v)
  {
    var n := |ls| - 1;
    DualValues(f, ds, ls, w, x, n);
    DualPreParts(ds[n], DualActivation(f, ds, w, x, n));
    hide DualPre, Pre, DualActivation;
    var z := DualPre(ds[n], DualActivation(f, ds, w, x, n));
    assert ValueLayer(ds[n]) == ls[n];
    assert Values(z)[0] == z[0].v;
    assert LayerFits(ls[n], w[n], w[n + 1]);
  }

  lemma DotOfOne(x: real, y: real)
    ensures Dot([x], [y]) == x * y
  {
    assert [x][..0] == [] && [y][..0] == [];
    assert Dot([], []) == 0.0;
  }

  // ---------------------------------------------------------------- one parameter at a time

  /** A single weight, bias or input entry. */
  datatype Parameter = WeightOf(c: Coord) | BiasOf(layer: nat, output: nat) | InputOf(i: nat)

  predicate ValidParameter(w: seq<nat>, p: Parameter)
    requires Widths(w)
  {
    match p
    case WeightOf(c) => ValidCoord(w, c)
    case BiasOf(l, o) => ValidUnit(w, l, o)
    case InputOf(i) => i < w[0]
  }

  /** What the training loops use as the gradient of the parameter. */
  function Gradient(f: Math, ls: seq<Layer>, w: seq<nat>, x: Vector, top: real, p: Parameter): real
    requires NetFits(ls, w) && |x| == w[0] && ValidParameter(w, p)
  {
    match p
    case WeightOf(c) =>
      Product(Delta(f, ls, w, x, top, c.layer + 1)[c.output], Activation(f, ls, w, x, c.layer)[c.input])
    case BiasOf(l, o) => Delta(f, ls, w, x, top, l + 1)[o]
    case InputOf(i) => Delta(f, ls, w, x, top, 0)[i]
  }

  function Indicator(b: bool): real {
    if b then 1.0 else 0.0
  }

  /** The layer moving in the direction of one parameter. */
  function LayerTowards(layer: Layer, l: nat, p: Parameter): DualLayer
    requires |layer.rows| == |layer.bias|
  {
    DualLayer(
      seq(|layer.rows|, o requires 0 <= o < |layer.rows| =>
        seq(|layer.rows[o]|, i requires 0 <= i < |layer.rows[o]| =>
          Dual(layer.rows[o][i], Indicator(p == WeightOf(Coord(l, o, i)))))),
      seq(|layer.bias|, o requires 0 <= o < |layer.bias| => Dual(layer.bias[o], Indicator(p == BiasOf(l, o)))))
  }

  function NetTowards(ls: seq<Layer>, p: Parameter): (ds: seq<DualLayer>)
    requires forall l :: 0 <= l < |ls| ==> |ls[l].rows| == |ls[l].bias|
    ensures |ds| == |ls|
  {
    seq(|ls|, l requires 0 <= l < |ls| => LayerTowards(ls[l], l, p))
  }

  function InputTowards(x: Vector, p: Parameter): (r: seq<Dual>)
    ensures |r| == |x|
  {
    seq(|x|, i requires 0 <= i < |x| => Dual(x[i], Indicator(p == InputOf(i))))
  }

  lemma TowardsFits(ls: seq<Layer>, w: seq<nat>, x: Vector, p: Parameter)
    requires NetFits(ls, w) && |x| == w[0]
    ensures DualFits(NetTowards(ls, p), w) && Carries(NetTowards(ls, p), ls)
    ensures Values(InputTowards(x, p)) == x
  {
    var ds := NetTowards(ls, p);
    forall l | 0 <= l < |ls|
      ensures ValueLayer(ds[l]) == ls[l]
      ensures |ds[l].rows| == |ds[l].bias| == w[l + 1]
      ensures forall o :: 0 <= o < |ds[l].rows| ==> |ds[l].rows[o]| == w[l]
    {
      assert LayerFits(ls[l], w[l], w[l + 1]);
      assert ValueLayer(ds[l]).bias == ls[l].bias;
      forall o | 0 <= o < |ls[l].rows|
        ensures ValueLayer(ds[l]).rows[o] == ls[l].rows[o]
      {
      }
      assert ValueLayer(ds[l]).rows == ls[l].rows;
    }
  }

  lemma {:induction false} PairWeightsZero(d: Vector, a: Vector, directions: seq<Vector>)
    requires |d| == |directions| && Matrix(directions, |a|)
    requires forall o, i :: 0 <= o < |directions| && 0 <= i < |a| ==> directions[o][i] == 0.0
    ensures PairWeights(d, a, directions) == 0.0
  {
    hide Dot;
    var n := |d| - 1;
    if n >= 0 {
      PairWeightsZero(d[..n], a, directions[..n]);
      DotZero(directions[n], Scale(d[n], a));
      DotCommutes(directions[n], Scale(d[n], a));
    }
  }

  lemma {:induction false} PairWeightsUnit(d: Vector, a: Vector, directions: seq<Vector>, r: nat, c: nat)
    requires |d| == |directions| && Matrix(directions, |a|) && r < |d| && c < |a|
    requires forall o, i :: 0 <= o < |directions| && 0 <= i < |a| ==> directions[o][i] == Indicator(o == r && i == c)
    ensures PairWeights(d, a, directions) == Product(d[r], a[c])
  {
    hide Dot, Product;
    var n := |d| - 1;
    if r == n {
      PairWeightsZero(d[..n], a, directions[..n]);
      DotUnit(Scale(d[n], a), directions[n], c);
    } else {
      PairWeightsUnit(d[..n], a, directions[..n], r, c);
      DotZero(directions[n], Scale(d[n], a));
      DotCommutes(directions[n], Scale(d[n], a));
    }
  }

  /** One layer's share of a direction that moves a single parameter. */
  lemma LayerShare(d: Vector, a: Vector, layer: Layer, l: nat, p: Parameter)
    requires LayerFits(layer, |a|, |d|)
    ensures var t := LayerTowards(layer, l, p);
            && |Tangents(t.bias)| == |d| && |RowTangents(t.rows)| == |d| && Matrix(RowTangents(t.rows), |a|)
            && Dot(d, Tangents(t.bias)) ==
               (if p.BiasOf? && p.layer == l && p.output < |d| then d[p.output] else 0.0)
            && PairWeights(d, a, RowTangents(t.rows)) ==
               if p.WeightOf? && p.c.layer == l && p.c.output < |d| && p.c.input < |a|
               then Product(d[p.c.output], a[p.c.input]) else 0.0
  {
    hide Dot, Product, PairWeights;
    var t := LayerTowards(layer, l, p);
    var dBias, dRows := Tangents(t.bias), RowTangents(t.rows);
    if p.BiasOf? && p.layer == l && p.output < |d| {
      DotUnit(d, dBias, p.output);
    } else {
      DotZero(dBias, d);
      DotCommutes(dBias, d);
    }
    if p.WeightOf? && p.c.layer == l && p.c.output < |d| && p.c.input < |a| {
      PairWeightsUnit(d, a, dRows, p.c.output, p.c.input);
    } else {
      PairWeightsZero(d, a, dRows);
    }
  }

  predicate WithinLayers(p: Parameter, n: nat) {
    match p
    case WeightOf(c) => c.layer < n
    case BiasOf(l, o) => l < n
    case InputOf(i) => true
  }

  lemma {:induction false} PairingOfOne(f: Math, ls: seq<Layer>, w: seq<nat>, x: Vector, top: real, p: Parameter, n: nat)
    requires NetFits(ls, w) && |x| == w[0] && ValidParameter(w, p) && n <= |ls|
    ensures (TowardsFits(ls, w, x, p);
             Pairing(f, NetTowards(ls, p), ls, w, InputTowards(x, p), top, n) ==
             if WithinLayers(p, n) then Gradient(f, ls, w, x, top, p) else 0.0)
  {
    hide Dot, Product, PairWeights, Delta, Activation, LayerTowards;
    TowardsFits(ls, w, x, p);
    if n == 0 {
      var d, t := Delta(f, ls, w, x, top, 0), Tangents(InputTowards(x, p));
      if p.InputOf? {
        DotUnit(d, t, p.i);
      } else {
        DotZero(t, d);
        DotCommutes(t, d);
      }
    } else {
      PairingOfOne(f, ls, w, x, top, p, n - 1);
      var l := n - 1;
      assert LayerFits(ls[l], w[l], w[l + 1]);
      LayerShare(Delta(f, ls, w, x, top, l + 1), Activation(f, ls, w, x, l), ls[l], l, p);
    }
  }

  /**
   For every network shape, the gradient of every single weight, bias and input entry is the
   output delta times the derivative of the pre-sigmoid output in that parameter.
   */
  lemma GradientIsDerivative(f: Math, ls: seq<Layer>, w: seq<nat>, x: Vector, top: real, p: Parameter)
    requires NetFits(ls, w) && |x| == w[0] && ValidParameter(w, p)
    ensures (TowardsFits(ls, w, x, p);
             Gradient(f, ls, w, x, top, p) == top * DualOutput(f, NetTowards(ls, p), w, InputTowards(x, p)).e)
  {
    hide Gradient, DualOutput, Pairing, NetTowards, InputTowards;
    TowardsFits(ls, w, x, p);
    PairingOfOne(f, ls, w, x, top, p, |ls|);
    GradientIsAdjoint(f, NetTowards(ls, p), ls, w, InputTowards(x, p), top);
  }
}
