/**
 How a dense scorer's parameters lie in flat arrays. Layer `l` of widths `w` maps `w[l]` inputs to
 `w[l + 1]` outputs; its weights are row-major in one block of the weight array.
 */
module NeuralLayout {
  import opened Options

  type u32 = x: int | 0 <= x < 0x1_0000_0000

  const SIZE_MAX: nat := 0xFFFF_FFFF_FFFF_FFFF
  const FLOAT_BYTES: nat := 4
  const MAX_HIDDEN_LAYERS: nat := 4
  const ARCHITECTURE_VERSION: nat := 1
  const WIDTH_LIMIT: nat := 16384
  const PARAMETER_LIMIT: nat := 268435456

  /** The fixed hidden-width slots; slots past the layer count hold zero. */
  type WidthSlots = s: seq<u32> | |s| == 4 witness [0, 0, 0, 0]

  datatype Architecture = Architecture(
    version: u32, embeddingDim: u32, inputDim: u32, hiddenLayerCount: u32,
    hiddenWidths: WidthSlots, outputDim: u32)

  datatype Layout = Layout(
    layerCount: nat, inputWidths: seq<nat>, outputWidths: seq<nat>,
    weightOffsets: seq<nat>, biasOffsets: seq<nat>, activationOffsets: seq<nat>,
    weightCount: nat, biasCount: nat, activationCount: nat)

  // ---------------------------------------------------------------- closed forms

  /** Every layer boundary from the input to the output. */
  predicate Widths(w: seq<nat>) {
    |w| >= 2 && forall k :: 0 <= k < |w| ==> w[k] > 0
  }

  function Layers(w: seq<nat>): nat
    requires Widths(w)
  {
    |w| - 1
  }

  function WeightOffset(w: seq<nat>, l: nat): nat
    requires l < |w|
  {
    if l == 0 then 0 else WeightOffset(w, l - 1) + w[l - 1] * w[l]
  }

  function BiasOffset(w: seq<nat>, l: nat): nat
    requires l < |w|
  {
    if l == 0 then 0 else BiasOffset(w, l - 1) + w[l]
  }

  function ActivationOffset(w: seq<nat>, l: nat): nat
    requires l <= |w|
  {
    if l == 0 then 0 else ActivationOffset(w, l - 1) + w[l - 1]
  }

  function WeightCount(w: seq<nat>): nat
    requires Widths(w)
  {
    WeightOffset(w, Layers(w))
  }

  function BiasCount(w: seq<nat>): nat
    requires Widths(w)
  {
    BiasOffset(w, Layers(w))
  }

  function ActivationCount(w: seq<nat>): nat
    requires Widths(w)
  {
    ActivationOffset(w, Layers(w) + 1)
  }

  // ---------------------------------------------------------------- coordinates

  datatype Coord = Coord(layer: nat, output: nat, input: nat)

  predicate ValidCoord(w: seq<nat>, c: Coord) {
    Widths(w) && c.layer < Layers(w) && c.output < w[c.layer + 1] && c.input < w[c.layer]
  }

  predicate ValidUnit(w: seq<nat>, l: nat, o: nat) {
    Widths(w) && l < Layers(w) && o < w[l + 1]
  }

  function WeightIndex(w: seq<nat>, c: Coord): nat
    requires ValidCoord(w, c)
  {
    WeightOffset(w, c.layer) + c.output * w[c.layer] + c.input
  }

  function BiasIndex(w: seq<nat>, l: nat, o: nat): nat
    requires ValidUnit(w, l, o)
  {
    BiasOffset(w, l) + o
  }

  lemma MultiplyKeepsOrder(a: int, b: int, width: nat)
    ensures a <= b ==> a * width <= b * width
  {
  }

  lemma QuotientIsUnique(width: nat, r: nat, c: nat)
    requires c < width
    ensures (r * width + c) / width == r && (r * width + c) % width == c
  {
    var n := r * width + c;
    var q := n / width;
    assert n == q * width + n % width;
    MultiplyKeepsOrder(r + 1, q, width);
    MultiplyKeepsOrder(q + 1, r, width);
  }

  lemma RowMajor(rows: nat, width: nat, r: nat, c: nat)
    requires r < rows && c < width
    ensures 0 <= r * width + c < rows * width
    ensures (r * width + c) / width == r && (r * width + c) % width == c
  {
    MultiplyKeepsOrder(r + 1, rows, width);
    QuotientIsUnique(width, r, c);
  }

  lemma {:induction false} OffsetsIncrease(w: seq<nat>, l: nat, m: nat)
    requires Widths(w) && l < m < |w|
    ensures WeightOffset(w, l) + w[l] * w[l + 1] <= WeightOffset(w, m)
    ensures BiasOffset(w, l) + w[l + 1] <= BiasOffset(w, m)
    ensures ActivationOffset(w, l) + w[l] <= ActivationOffset(w, m)
  {
    if l < m - 1 {
      OffsetsIncrease(w, l, m - 1);
    }
  }

  /** The blocks start at zero and abut: each layer's ends where the next one's begins. */
  lemma BlocksAbut(w: seq<nat>, l: nat)
    requires Widths(w) && l < Layers(w)
    ensures WeightOffset(w, 0) == 0 && WeightOffset(w, l + 1) == WeightOffset(w, l) + w[l] * w[l + 1]
    ensures BiasOffset(w, 0) == 0 && BiasOffset(w, l + 1) == BiasOffset(w, l) + w[l + 1]
    ensures ActivationOffset(w, 0) == 0 && ActivationOffset(w, l + 1) == ActivationOffset(w, l) + w[l]
    ensures ActivationCount(w) == ActivationOffset(w, Layers(w)) + w[Layers(w)]
  {
  }

  /** Every coordinate has a place in its layer's block of the array. */
  lemma WeightIndexInRange(w: seq<nat>, c: Coord)
    requires ValidCoord(w, c)
    ensures WeightOffset(w, c.layer) <= WeightIndex(w, c) < WeightOffset(w, c.layer) + w[c.layer] * w[c.layer + 1]
    ensures WeightIndex(w, c) < WeightCount(w)
  {
    RowMajor(w[c.layer + 1], w[c.layer], c.output, c.input);
    OffsetsIncrease(w, c.layer, Layers(w));
  }

  /** Different coordinates never share a place. */
  lemma WeightIndexIsInjective(w: seq<nat>, a: Coord, b: Coord)
    requires ValidCoord(w, a) && ValidCoord(w, b) && WeightIndex(w, a) == WeightIndex(w, b)
    ensures a == b
  {
    WeightIndexInRange(w, a);
    WeightIndexInRange(w, b);
    if a.layer < b.layer {
      OffsetsIncrease(w, a.layer, b.layer);
    } else if b.layer < a.layer {
      OffsetsIncrease(w, b.layer, a.layer);
    } else {
      RowMajor(w[a.layer + 1], w[a.layer], a.output, a.input);
      RowMajor(w[b.layer + 1], w[b.layer], b.output, b.input);
    }
  }

  /** The layer whose block holds weight `j`, searching the first `l` layers. */
  function LayerOf(w: seq<nat>, l: nat, j: nat): (k: nat)
    requires Widths(w) && l < |w| && j < WeightOffset(w, l)
    ensures k < l && WeightOffset(w, k) <= j < WeightOffset(w, k + 1)
  {
    if j >= WeightOffset(w, l - 1) then l - 1 else LayerOf(w, l - 1, j)
  }

  function Locate(w: seq<nat>, j: nat): Coord
    requires Widths(w) && j < WeightCount(w)
  {
    var l := LayerOf(w, Layers(w), j);
    var r := j - WeightOffset(w, l);
    Coord(l, r / w[l], r % w[l])
  }

  lemma RowAndColumn(rows: nat, width: nat, r: nat)
    requires width > 0 && r < rows * width
    ensures 0 <= r / width < rows && r % width < width && (r / width) * width + r % width == r
  {
    MultiplyKeepsOrder(rows, r / width, width);
  }

  /** Every place holds a coordinate, so indexing is a bijection onto the weight array. */
  lemma LocateIsInverse(w: seq<nat>, j: nat)
    requires Widths(w) && j < WeightCount(w)
    ensures ValidCoord(w, Locate(w, j)) && WeightIndex(w, Locate(w, j)) == j
  {
    var l := LayerOf(w, Layers(w), j);
    assert WeightOffset(w, l + 1) == WeightOffset(w, l) + w[l] * w[l + 1];
    RowAndColumn(w[l + 1], w[l], j - WeightOffset(w, l));
  }

  lemma BiasIndexInRange(w: seq<nat>, l: nat, o: nat)
    requires ValidUnit(w, l, o)
    ensures BiasIndex(w, l, o) < BiasCount(w)
  {
    OffsetsIncrease(w, l, Layers(w));
  }

  lemma BiasIndexIsInjective(w: seq<nat>, l: nat, o: nat, m: nat, p: nat)
    requires ValidUnit(w, l, o) && ValidUnit(w, m, p) && BiasIndex(w, l, o) == BiasIndex(w, m, p)
    ensures l == m && o == p
  {
    if l < m {
      OffsetsIncrease(w, l, m);
    } else if m < l {
      OffsetsIncrease(w, m, l);
    }
  }

  predicate Precedes(a: Coord, b: Coord) {
    a.layer < b.layer ||
    (a.layer == b.layer && (a.output < b.output || (a.output == b.output && a.input < b.input)))
  }

  /** The flat order is by layer, then by output unit, then by input unit. */
  lemma WeightIndexKeepsOrder(w: seq<nat>, a: Coord, b: Coord)
    requires ValidCoord(w, a) && ValidCoord(w, b)
    ensures WeightIndex(w, a) < WeightIndex(w, b) <==> Precedes(a, b)
  {
    OneWay(w, a, b);
    OneWay(w, b, a);
  }

  lemma OneWay(w: seq<nat>, a: Coord, b: Coord)
    requires ValidCoord(w, a) && ValidCoord(w, b)
    ensures Precedes(a, b) ==> WeightIndex(w, a) < WeightIndex(w, b)
  {
    if a.layer < b.layer {
      hide WeightIndex;
      WeightIndexInRange(w, a);
      WeightIndexInRange(w, b);
      OffsetsIncrease(w, a.layer, b.layer);
    } else if a.layer == b.layer && a.output < b.output {
      RowOrder(w[a.layer], a.output, b.output, a.input);
    }
  }

  lemma RowOrder(width: nat, r: nat, r': nat, c: nat)
    requires r < r' && c < width
    ensures r * width + c < r' * width
  {
    MultiplyKeepsOrder(r + 1, r', width);
  }

  function BiasLayerOf(w: seq<nat>, l: nat, j: nat): (k: nat)
    requires Widths(w) && l < |w| && j < BiasOffset(w, l)
    ensures k < l && BiasOffset(w, k) <= j < BiasOffset(w, k + 1)
  {
    if j >= BiasOffset(w, l - 1) then l - 1 else BiasLayerOf(w, l - 1, j)
  }

  /** Every place of the bias array belongs to a unit. */
  lemma BiasIndexIsOnto(w: seq<nat>, j: nat)
    requires Widths(w) && j < BiasCount(w)
    ensures var l := BiasLayerOf(w, Layers(w), j);
            ValidUnit(w, l, j - BiasOffset(w, l)) && BiasIndex(w, l, j - BiasOffset(w, l)) == j
  {
    var l := BiasLayerOf(w, Layers(w), j);
    assert BiasOffset(w, l + 1) == BiasOffset(w, l) + w[l + 1];
  }

  // ---------------------------------------------------------------- accepted architectures

  function WidthsOf(a: Architecture): seq<nat>
    requires a.hiddenLayerCount <= 4
  {
    [a.inputDim] + a.hiddenWidths[..a.hiddenLayerCount] + [a.outputDim]
  }

  predicate WellShaped(a: Architecture) {
    && a.version == ARCHITECTURE_VERSION
    && 0 < a.embeddingDim <= WIDTH_LIMIT
    && 0 < a.hiddenLayerCount <= MAX_HIDDEN_LAYERS
    && a.outputDim == 1
    && a.inputDim == 2 * a.embeddingDim
    && (forall k :: 0 <= k < a.hiddenLayerCount ==> 0 < a.hiddenWidths[k] <= WIDTH_LIMIT)
    && (forall k :: a.hiddenLayerCount <= k < 4 ==> a.hiddenWidths[k] == 0)
  }

  lemma WellShapedWidths(a: Architecture)
    requires WellShaped(a)
    ensures var w := WidthsOf(a);
            && Widths(w) && Layers(w) == a.hiddenLayerCount + 1
            && w[0] == a.inputDim && w[Layers(w)] == 1
            && (forall k :: 0 <= k < a.hiddenLayerCount ==> w[k + 1] == a.hiddenWidths[k])
            && (forall k :: 0 <= k < |w| ==> w[k] <= 2 * WIDTH_LIMIT)
            && (forall k :: 1 <= k < |w| ==> w[k] <= WIDTH_LIMIT)
  {
  }

  predicate Accepts(a: Architecture) {
    WellShaped(a) && (WellShapedWidths(a); WeightCount(WidthsOf(a)) + BiasCount(WidthsOf(a)) <= PARAMETER_LIMIT)
  }

  function LayoutOf(w: seq<nat>): Layout
    requires Widths(w)
  {
    var n := Layers(w);
    Layout(n,
           seq(n, l requires 0 <= l < n => w[l]),
           seq(n, l requires 0 <= l < n => w[l + 1]),
           seq(n, l requires 0 <= l < n => WeightOffset(w, l)),
           seq(n, l requires 0 <= l < n => BiasOffset(w, l)),
           seq(n + 1, l requires 0 <= l < n + 1 => ActivationOffset(w, l)),
           WeightCount(w), BiasCount(w), ActivationCount(w))
  }

  lemma ProductBound(x: nat, y: nat)
    requires x <= 2 * WIDTH_LIMIT && y <= WIDTH_LIMIT
    ensures x * y <= 0x2000_0000
  {
    MultiplyKeepsOrder(x, 2 * WIDTH_LIMIT, y);
    MultiplyKeepsOrder(y, WIDTH_LIMIT, 2 * WIDTH_LIMIT);
  }

  /** No size of a well-shaped architecture comes near the machine word. */
  lemma {:induction false} SizesAreSmall(w: seq<nat>, l: nat)
    requires Widths(w) && l < |w|
    requires forall k :: 0 <= k < |w| ==> w[k] <= 2 * WIDTH_LIMIT
    requires forall k :: 1 <= k < |w| ==> w[k] <= WIDTH_LIMIT
    ensures WeightOffset(w, l) <= l * 0x2000_0000
    ensures BiasOffset(w, l) <= l * WIDTH_LIMIT
    ensures ActivationOffset(w, l) <= l * 2 * WIDTH_LIMIT
  {
    if l > 0 {
      SizesAreSmall(w, l - 1);
      ProductBound(w[l - 1], w[l]);
    }
  }

  lemma QuotientBound(x: nat, y: nat)
    requires y > 0 && x * y <= SIZE_MAX
    ensures x <= SIZE_MAX / y
  {
    MultiplyKeepsOrder(SIZE_MAX / y + 1, x, y);
  }

  /** So none of the overflow guards of the layout loop can fire. */
  lemma GuardsNeverFire(w: seq<nat>, l: nat)
    requires Widths(w) && l < Layers(w) <= 5
    requires forall k :: 0 <= k < |w| ==> w[k] <= 2 * WIDTH_LIMIT
    requires forall k :: 1 <= k < |w| ==> w[k] <= WIDTH_LIMIT
    ensures w[l] <= SIZE_MAX / w[l + 1]
    ensures w[l] * w[l + 1] <= SIZE_MAX - WeightOffset(w, l)
    ensures w[l + 1] <= SIZE_MAX - BiasOffset(w, l)
    ensures w[l + 1] <= SIZE_MAX - ActivationOffset(w, l + 1)
  {
    SizesAreSmall(w, l);
    SizesAreSmall(w, l + 1);
    ProductBound(w[l], w[l + 1]);
    QuotientBound(w[l], w[l + 1]);
  }

  /** The layout being filled agrees with the closed form on its first `n` layers. */
  predicate FilledTo(w: seq<nat>, n: nat, inputs: seq<nat>, outputs: seq<nat>, weights: seq<nat>,
                     biases: seq<nat>, activations: seq<nat>)
    requires Widths(w) && n <= Layers(w)
  {
    && |inputs| == |outputs| == |weights| == |biases| == n && |activations| == n + 1
    && (forall l :: 0 <= l < n ==> inputs[l] == w[l] && outputs[l] == w[l + 1])
    && (forall l :: 0 <= l < n ==> weights[l] == WeightOffset(w, l) && biases[l] == BiasOffset(w, l))
    && (forall l :: 0 <= l <= n ==> activations[l] == ActivationOffset(w, l))
  }

  lemma FilledStart(w: seq<nat>)
    requires Widths(w)
    ensures FilledTo(w, 0, [], [], [], [], [0])
    ensures WeightOffset(w, 0) == 0 && BiasOffset(w, 0) == 0 && ActivationOffset(w, 1) == w[0]
  {
  }

  lemma FilledStep(w: seq<nat>, n: nat, inputs: seq<nat>, outputs: seq<nat>, weights: seq<nat>,
                   biases: seq<nat>, activations: seq<nat>)
    requires Widths(w) && n < Layers(w) && FilledTo(w, n, inputs, outputs, weights, biases, activations)
    ensures FilledTo(w, n + 1, inputs + [w[n]], outputs + [w[n + 1]], weights + [WeightOffset(w, n)],
                     biases + [BiasOffset(w, n)], activations + [ActivationOffset(w, n + 1)])
    ensures WeightOffset(w, n + 1) == WeightOffset(w, n) + w[n] * w[n + 1]
    ensures BiasOffset(w, n + 1) == BiasOffset(w, n) + w[n + 1]
    ensures ActivationOffset(w, n + 2) == ActivationOffset(w, n + 1) + w[n + 1]
  {
  }

  lemma FilledAll(w: seq<nat>, inputs: seq<nat>, outputs: seq<nat>, weights: seq<nat>,
                  biases: seq<nat>, activations: seq<nat>)
    requires Widths(w) && FilledTo(w, Layers(w), inputs, outputs, weights, biases, activations)
    ensures Layout(Layers(w), inputs, outputs, weights, biases, activations,
                   WeightCount(w), BiasCount(w), ActivationCount(w)) == LayoutOf(w)
  {
  }

  /** The width slots: positive and within the limit up to the layer count, zero after it. */
  method WidthSlotsValid(a: Architecture) returns (ok: bool)
    requires a.hiddenLayerCount <= 4
    ensures ok <==> (forall k :: 0 <= k < a.hiddenLayerCount ==> 0 < a.hiddenWidths[k] <= WIDTH_LIMIT) &&
                    (forall k :: a.hiddenLayerCount <= k < 4 ==> a.hiddenWidths[k] == 0)
  {
    for layer := 0 to 4
      invariant forall k :: 0 <= k < layer && k < a.hiddenLayerCount ==> 0 < a.hiddenWidths[k] <= WIDTH_LIMIT
      invariant forall k :: a.hiddenLayerCount <= k < layer ==> a.hiddenWidths[k] == 0
    {
      if layer < a.hiddenLayerCount {
        if a.hiddenWidths[layer] == 0 || a.hiddenWidths[layer] > WIDTH_LIMIT {
          return false;
        }
      } else if a.hiddenWidths[layer] != 0 {
        return false;
      }
    }
    return true;
  }

  /** The accumulation loop. Its overflow guards cannot fire for a well-shaped architecture. */
  method FillLayout(a: Architecture) returns (layout: Layout)
    requires WellShaped(a)
    ensures (WellShapedWidths(a); layout == LayoutOf(WidthsOf(a)))
  {
    hide WidthsOf, WeightOffset, BiasOffset, ActivationOffset, LayoutOf;
    WellShapedWidths(a);
    ghost var w := WidthsOf(a);
    var count := a.hiddenLayerCount + 1;
    var inputWidths: seq<nat>, outputWidths: seq<nat> := [], [];
    var weightOffsets: seq<nat>, biasOffsets: seq<nat>, activationOffsets: seq<nat> := [], [], [0];
    var weights: nat, biases: nat, activations: nat := 0, 0, a.inputDim;
    var previous: nat := a.inputDim;
    FilledStart(w);
    for layer := 0 to count
      invariant previous == w[layer]
      invariant weights == WeightOffset(w, layer) && biases == BiasOffset(w, layer)
      invariant activations == ActivationOffset(w, layer + 1)
      invariant FilledTo(w, layer, inputWidths, outputWidths, weightOffsets, biasOffsets, activationOffsets)
    {
      hide FilledTo;
      GuardsNeverFire(w, layer);
      FilledStep(w, layer, inputWidths, outputWidths, weightOffsets, biasOffsets, activationOffsets);
      var output: nat := if layer < a.hiddenLayerCount then a.hiddenWidths[layer] else a.outputDim;
      assert output == w[layer + 1];
      if previous == 0 || output == 0 || previous > SIZE_MAX / output {
        assert false;
      }
      var layerWeights := previous * output;
      if layerWeights > SIZE_MAX - weights || output > SIZE_MAX - biases || output > SIZE_MAX - activations {
        assert false;
      }
      inputWidths := inputWidths + [previous];
      outputWidths := outputWidths + [output];
      weightOffsets := weightOffsets + [weights];
      biasOffsets := biasOffsets + [biases];
      activationOffsets := activationOffsets + [activations];
      weights := weights + layerWeights;
      biases := biases + output;
      activations := activations + output;
      previous := output;
    }
    FilledAll(w, inputWidths, outputWidths, weightOffsets, biasOffsets, activationOffsets);
    return Layout(count, inputWidths, outputWidths, weightOffsets, biasOffsets, activationOffsets,
                  weights, biases, activations);
  }

  /**
   The guarded layout computation. It refuses exactly the architectures that are malformed or have
   too many parameters: none of its overflow guards ever fires, and what it returns is the
   closed-form layout.
   */
  method BuildLayout(a: Architecture) returns (r: Option<Layout>)
    ensures r.Some? <==> Accepts(a)
    ensures r.Some? ==> (WellShapedWidths(a); r.value == LayoutOf(WidthsOf(a)))
  {
    if a.version != ARCHITECTURE_VERSION || a.embeddingDim == 0 || a.embeddingDim > WIDTH_LIMIT ||
       a.hiddenLayerCount == 0 || a.hiddenLayerCount > MAX_HIDDEN_LAYERS || a.outputDim != 1 {
      return None;
    }
    if a.embeddingDim * 2 > 0xFFFF_FFFF || a.inputDim != a.embeddingDim * 2 {
      return None;
    }
    var slots := WidthSlotsValid(a);
    if !slots {
      return None;
    }

    var layout := FillLayout(a);
    WellShapedWidths(a);
    hide WidthsOf, WeightOffset, BiasOffset, ActivationOffset;
    SizesAreSmall(WidthsOf(a), a.hiddenLayerCount + 1);
    if layout.weightCount > PARAMETER_LIMIT || layout.biasCount > PARAMETER_LIMIT - layout.weightCount ||
       layout.weightCount > SIZE_MAX / FLOAT_BYTES || layout.biasCount > SIZE_MAX / FLOAT_BYTES ||
       layout.activationCount > SIZE_MAX / FLOAT_BYTES {
      return None;
    }
    return Some(layout);
  }

  /** Weights and biases together: one row of inputs plus a bias for every unit of every layer. */
  function ParameterSum(w: seq<nat>, l: nat): nat
    requires l < |w|
  {
    if l == 0 then 0 else ParameterSum(w, l - 1) + (w[l - 1] + 1) * w[l]
  }

  lemma {:induction false} ParametersAreTheSum(w: seq<nat>, l: nat)
    requires l < |w|
    ensures WeightOffset(w, l) + BiasOffset(w, l) == ParameterSum(w, l)
  {
    if l > 0 {
      ParametersAreTheSum(w, l - 1);
      OneMoreRow(w[l - 1], w[l]);
    }
  }

  lemma OneMoreRow(rows: nat, width: nat)
    ensures (rows + 1) * width == rows * width + width
  {
  }

  /** The limits of an accepted architecture. */
  lemma AcceptsIff(a: Architecture)
    ensures Accepts(a) <==>
              && a.version == 1 && 1 <= a.embeddingDim <= 16384 && a.inputDim == 2 * a.embeddingDim && a.outputDim == 1
              && 1 <= a.hiddenLayerCount <= 4
              && (forall k :: 0 <= k < 4 ==>
                   if k < a.hiddenLayerCount then 1 <= a.hiddenWidths[k] <= 16384 else a.hiddenWidths[k] == 0)
              && ParameterSum(WidthsOf(a), a.hiddenLayerCount + 1) <= 268435456
  {
    hide WidthsOf;
    if WellShaped(a) {
      WellShapedWidths(a);
      ParametersAreTheSum(WidthsOf(a), a.hiddenLayerCount + 1);
    }
  }

  /** The exact number of shared parameters, or zero for an architecture that is refused. */
  method ParameterCount(a: Architecture) returns (n: nat)
    ensures n <= PARAMETER_LIMIT
    ensures n > 0 <==> Accepts(a)
    ensures Accepts(a) ==> (WellShapedWidths(a); n == ParameterSum(WidthsOf(a), Layers(WidthsOf(a))))
  {
    var layout := BuildLayout(a);
    if layout.None? {
      return 0;
    }
    WellShapedWidths(a);
    ParametersAreTheSum(WidthsOf(a), Layers(WidthsOf(a)));
    OffsetsIncrease(WidthsOf(a), 0, Layers(WidthsOf(a)));
    return layout.value.weightCount + layout.value.biasCount;
  }
}
