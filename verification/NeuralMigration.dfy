/**
 The transactional expansion as the core performs it: allocate and fill the larger network, copy
 every learned parameter into it by role, and only then swap it in.
 */
module NeuralMigration {
  import opened Options
  import opened NeuralLayout
  import opened NeuralRoles
  import opened NeuralExpansion
  import opened NeuralGraph

  datatype Status = Ok | MigrationError | OutOfMemory

  // ---------------------------------------------------------------- how far the copy has come

  /** The inputs copied once `n` steps of a row are done; layer 0 copies both embedding halves per step. */
  predicate InputDone(s: Architecture, layer: nat, input: nat, n: nat) {
    input < n || (layer == 0 && s.embeddingDim <= input < s.embeddingDim + n)
  }

  predicate Done(s: Architecture, c: Coord, layer: nat, output: nat, n: nat) {
    || c.layer < layer
    || (c.layer == layer && (c.output < output || (c.output == output && InputDone(s, layer, c.input, n))))
  }

  ghost predicate Copying(s: Architecture, t: Architecture) {
    Contains(s, t) && Accepts(s) && Accepts(t)
  }

  /** What place `j` holds at that point: the copied value if its turn has come, else its initial value. */
  ghost function PartWeight(s: Architecture, t: Architecture, old_: seq<real>, init: seq<real>,
                            layer: nat, output: nat, n: nat, j: nat): real
    requires Copying(s, t) && (WellShapedWidths(s); |old_| == WeightCount(WidthsOf(s)))
    requires (WellShapedWidths(t); j < |init| == WeightCount(WidthsOf(t)))
  {
    match Origin(s, t, j)
    case Some(c) =>
      WeightIndexInRange(WidthsOf(s), c);
      if Done(s, c, layer, output, n) then old_[WeightIndex(WidthsOf(s), c)] else init[j]
    case None => init[j]
  }

  ghost predicate WeightsCopied(s: Architecture, t: Architecture, old_: seq<real>, init: seq<real>, cur: seq<real>,
                                layer: nat, output: nat, n: nat)
    requires Copying(s, t) && (WellShapedWidths(s); |old_| == WeightCount(WidthsOf(s)))
    requires (WellShapedWidths(t); |init| == WeightCount(WidthsOf(t)))
  {
    && |cur| == |init|
    && forall j :: 0 <= j < |cur| ==> cur[j] == PartWeight(s, t, old_, init, layer, output, n, j)
  }

  lemma CopyStarts(s: Architecture, t: Architecture, old_: seq<real>, init: seq<real>)
    requires Copying(s, t) && (WellShapedWidths(s); |old_| == WeightCount(WidthsOf(s)))
    requires (WellShapedWidths(t); |init| == WeightCount(WidthsOf(t)))
    ensures WeightsCopied(s, t, old_, init, init, 0, 0, 0)
  {
  }

  lemma DoneStep(s: Architecture, x: Coord, c: Coord)
    requires c.layer > 0
    ensures Done(s, x, c.layer, c.output, c.input + 1) <==> Done(s, x, c.layer, c.output, c.input) || x == c
  {
  }

  /** Writing one weight at its place advances the copy by that weight and disturbs no other place. */
  lemma CopyOne(s: Architecture, t: Architecture, old_: seq<real>, init: seq<real>, cur: seq<real>,
                layer: nat, output: nat, n: nat, c: Coord, n': nat)
    requires Copying(s, t) && (WellShapedWidths(s); |old_| == WeightCount(WidthsOf(s)))
    requires (WellShapedWidths(t); |init| == WeightCount(WidthsOf(t)))
    requires WeightsCopied(s, t, old_, init, cur, layer, output, n)
    requires c.layer == layer > 0 && c.output == output && c.input == n && n' == n + 1
    requires ValidCoord(WidthsOf(s), c)
    ensures (WeightIndexInRange(WidthsOf(s), c);
             WeightsCopied(s, t, old_, init, cur[Place(s, t, c) := old_[WeightIndex(WidthsOf(s), c)]], layer, output, n'))
  {
    WeightIndexInRange(WidthsOf(s), c);
    hide WidthsOf, WeightIndex, Place, Origin, Contains, Done, Accepts, ValidCoord;
    var cur' := cur[Place(s, t, c) := old_[WeightIndex(WidthsOf(s), c)]];
    forall j | 0 <= j < |cur'|
      ensures cur'[j] == PartWeight(s, t, old_, init, layer, output, n', j)
    {
      OriginIff(s, t, j, c);
      if Origin(s, t, j).Some? {
        DoneStep(s, Origin(s, t, j).value, c);
      }
      assert cur[j] == PartWeight(s, t, old_, init, layer, output, n, j);
    }
  }

  /** One step of a layer-0 row: the source-half and target-half weights of one embedding dimension. */
  lemma CopyPair(s: Architecture, t: Architecture, old_: seq<real>, init: seq<real>, cur: seq<real>,
                 output: nat, n: nat, a: Coord, b: Coord)
    requires Copying(s, t) && (WellShapedWidths(s); |old_| == WeightCount(WidthsOf(s)))
    requires (WellShapedWidths(t); |init| == WeightCount(WidthsOf(t)))
    requires WeightsCopied(s, t, old_, init, cur, 0, output, n)
    requires n < s.embeddingDim && a == Coord(0, output, n) && b == Coord(0, output, s.embeddingDim + n)
    requires ValidCoord(WidthsOf(s), a) && ValidCoord(WidthsOf(s), b)
    ensures (WeightIndexInRange(WidthsOf(s), a);
             WeightIndexInRange(WidthsOf(s), b);
             WeightsCopied(s, t, old_, init,
                           cur[Place(s, t, a) := old_[WeightIndex(WidthsOf(s), a)]]
                              [Place(s, t, b) := old_[WeightIndex(WidthsOf(s), b)]], 0, output, n + 1))
  {
    WeightIndexInRange(WidthsOf(s), a);
    WeightIndexInRange(WidthsOf(s), b);
    hide WidthsOf, WeightIndex, Place, Origin, Contains;
    var cur' := cur[Place(s, t, a) := old_[WeightIndex(WidthsOf(s), a)]]
                   [Place(s, t, b) := old_[WeightIndex(WidthsOf(s), b)]];
    forall j | 0 <= j < |cur'|
      ensures cur'[j] == PartWeight(s, t, old_, init, 0, output, n + 1, j)
    {
      OriginIff(s, t, j, a);
      OriginIff(s, t, j, b);
    }
  }

  /** The number of steps in a row of the source layer. */
  function RowSteps(s: Architecture, layer: nat): nat
    requires WellShaped(s) && layer <= s.hiddenLayerCount
  {
    if layer == 0 then s.embeddingDim else s.hiddenWidths[layer - 1]
  }

  lemma RowEnds(s: Architecture, t: Architecture, old_: seq<real>, init: seq<real>, cur: seq<real>,
                layer: nat, output: nat)
    requires Copying(s, t) && (WellShapedWidths(s); |old_| == WeightCount(WidthsOf(s)))
    requires (WellShapedWidths(t); |init| == WeightCount(WidthsOf(t)))
    requires layer <= s.hiddenLayerCount
    requires WeightsCopied(s, t, old_, init, cur, layer, output, RowSteps(s, layer))
    ensures WeightsCopied(s, t, old_, init, cur, layer, output + 1, 0)
  {
    WellShapedWidths(s);
    hide WidthsOf, WeightIndex, Origin, Contains, Accepts;
    forall j | 0 <= j < |cur|
      ensures cur[j] == PartWeight(s, t, old_, init, layer, output + 1, 0, j)
    {
      assert cur[j] == PartWeight(s, t, old_, init, layer, output, RowSteps(s, layer), j);
    }
  }

  lemma LayerEnds(s: Architecture, t: Architecture, old_: seq<real>, init: seq<real>, cur: seq<real>,
                  layer: nat, outputs: nat)
    requires Copying(s, t) && (WellShapedWidths(s); |old_| == WeightCount(WidthsOf(s)))
    requires (WellShapedWidths(t); |init| == WeightCount(WidthsOf(t)))
    requires layer < Layers(WidthsOf(s)) && outputs == WidthsOf(s)[layer + 1]
    requires WeightsCopied(s, t, old_, init, cur, layer, outputs, 0)
    ensures WeightsCopied(s, t, old_, init, cur, layer + 1, 0, 0)
  {
    hide WidthsOf, WeightIndex, Origin, Contains, Accepts;
    forall j | 0 <= j < |cur|
      ensures cur[j] == PartWeight(s, t, old_, init, layer + 1, 0, 0, j)
    {
      assert cur[j] == PartWeight(s, t, old_, init, layer, outputs, 0, j);
    }
  }

  /** When every source layer has been copied, each place holds what expansion prescribes. */
  lemma CopyEnds(s: Architecture, t: Architecture, old_: seq<real>, init: seq<real>, cur: seq<real>)
    requires Copying(s, t) && (WellShapedWidths(s); |old_| == WeightCount(WidthsOf(s)))
    requires (WellShapedWidths(t); |init| == WeightCount(WidthsOf(t)))
    requires WeightsCopied(s, t, old_, init, cur, s.hiddenLayerCount + 1, 0, 0)
    ensures forall j :: 0 <= j < |cur| ==> cur[j] == MixedWeight(s, t, old_, init[j], j)
  {
    WellShapedWidths(s);
    hide WidthsOf, WeightIndex, Origin, Contains, Accepts;
    forall j | 0 <= j < |cur|
      ensures cur[j] == MixedWeight(s, t, old_, init[j], j)
    {
      assert cur[j] == PartWeight(s, t, old_, init, s.hiddenLayerCount + 1, 0, 0, j);
    }
  }

  ghost function PartBias(s: Architecture, t: Architecture, old_: seq<real>, layer: nat, output: nat, j: nat): real
    requires Copying(s, t) && (WellShapedWidths(s); |old_| == BiasCount(WidthsOf(s)))
    requires (WellShapedWidths(t); j < BiasCount(WidthsOf(t)))
  {
    match BiasOrigin(s, t, j)
    case Some(u) =>
      BiasIndexInRange(WidthsOf(s), u.layer, u.output);
      if u.layer < layer || (u.layer == layer && u.output < output)
      then old_[BiasIndex(WidthsOf(s), u.layer, u.output)] else 0.0
    case None => 0.0
  }

  ghost predicate BiasesCopied(s: Architecture, t: Architecture, old_: seq<real>, cur: seq<real>,
                               layer: nat, output: nat)
    requires Copying(s, t) && (WellShapedWidths(s); |old_| == BiasCount(WidthsOf(s)))
  {
    WellShapedWidths(t);
    && |cur| == BiasCount(WidthsOf(t))
    && forall j :: 0 <= j < |cur| ==> cur[j] == PartBias(s, t, old_, layer, output, j)
  }

  lemma CopyBias(s: Architecture, t: Architecture, old_: seq<real>, cur: seq<real>, u: Unit)
    requires Copying(s, t) && (WellShapedWidths(s); |old_| == BiasCount(WidthsOf(s)))
    requires BiasesCopied(s, t, old_, cur, u.layer, u.output)
    requires ValidUnit(WidthsOf(s), u.layer, u.output)
    ensures (BiasIndexInRange(WidthsOf(s), u.layer, u.output);
             BiasesCopied(s, t, old_, cur[BiasPlace(s, t, u) := old_[BiasIndex(WidthsOf(s), u.layer, u.output)]],
                          u.layer, u.output + 1))
  {
    WellShapedWidths(t);
    hide WidthsOf, BiasIndex, BiasPlace, BiasOrigin, Contains, Accepts;
    BiasIndexInRange(WidthsOf(s), u.layer, u.output);
    var cur' := cur[BiasPlace(s, t, u) := old_[BiasIndex(WidthsOf(s), u.layer, u.output)]];
    forall j | 0 <= j < |cur'|
      ensures cur'[j] == PartBias(s, t, old_, u.layer, u.output + 1, j)
    {
      BiasOriginIff(s, t, j, u);
    }
  }

  lemma BiasLayerEnds(s: Architecture, t: Architecture, old_: seq<real>, cur: seq<real>, layer: nat, outputs: nat)
    requires Copying(s, t) && (WellShapedWidths(s); |old_| == BiasCount(WidthsOf(s)))
    requires layer < Layers(WidthsOf(s)) && outputs == WidthsOf(s)[layer + 1]
    requires BiasesCopied(s, t, old_, cur, layer, outputs)
    ensures BiasesCopied(s, t, old_, cur, layer + 1, 0)
  {
    WellShapedWidths(t);
    hide WidthsOf, BiasIndex, BiasOrigin, Contains, Accepts;
    forall j | 0 <= j < |cur|
      ensures cur[j] == PartBias(s, t, old_, layer + 1, 0, j)
    {
      assert cur[j] == PartBias(s, t, old_, layer, outputs, j);
    }
  }

  lemma BiasCopyEnds(s: Architecture, t: Architecture, old_: seq<real>, cur: seq<real>)
    requires Copying(s, t) && (WellShapedWidths(s); |old_| == BiasCount(WidthsOf(s)))
    requires BiasesCopied(s, t, old_, cur, s.hiddenLayerCount + 1, 0)
    ensures (WellShapedWidths(t);
             |cur| == BiasCount(WidthsOf(t)) && forall j :: 0 <= j < |cur| ==> cur[j] == MixedBias(s, t, old_, j))
  {
    WellShapedWidths(s);
    WellShapedWidths(t);
    hide WidthsOf, BiasIndex, BiasOrigin, Contains, Accepts;
    forall j | 0 <= j < |cur|
      ensures cur[j] == MixedBias(s, t, old_, j)
    {
      assert cur[j] == PartBias(s, t, old_, s.hiddenLayerCount + 1, 0, j);
    }
  }

  // ---------------------------------------------------------------- the copying loops

  /** The larger network has received the source's parameters up to the given point. */
  ghost predicate Received(source: Network, target: Network, s: Architecture, t: Architecture, init: seq<real>,
                           layer: nat, output: nat, n: nat, biases: nat)
    requires Copying(s, t)
    reads source.Arrays(), target.Arrays()
  {
    WellShapedWidths(s);
    WellShapedWidths(t);
    && source.Shaped(WidthsOf(s)) && target.Shaped(WidthsOf(t))
    && |init| == WeightCount(WidthsOf(t))
    && WeightsCopied(s, t, source.weights[..], init, target.weights[..], layer, output, n)
    && WeightsCopied(s, t, source.weightImportance[..], Zeros(|init|), target.weightImportance[..], layer, output, n)
    && BiasesCopied(s, t, source.biases[..], target.biases[..], layer, biases)
    && BiasesCopied(s, t, source.biasImportance[..], target.biasImportance[..], layer, biases)
  }

  function Zeros(n: nat): (z: seq<real>)
    ensures |z| == n
  {
    seq(n, _ => 0.0)
  }

  method CopyWeight(source: Network, target: Network, from: nat, to: nat)
    requires source.Arrays() !! target.Arrays()
    requires target.weights != target.weightImportance
    requires from < source.weights.Length == source.weightImportance.Length
    requires to < target.weights.Length == target.weightImportance.Length
    modifies target.weights, target.weightImportance
    ensures target.weights[..] == old(target.weights[..])[to := source.weights[from]]
    ensures target.weightImportance[..] == old(target.weightImportance[..])[to := source.weightImportance[from]]
  {
    target.weights[to] := source.weights[from];
    target.weightImportance[to] := source.weightImportance[from];
  }

  method CopyUnitBias(source: Network, target: Network, from: nat, to: nat)
    requires source.Arrays() !! target.Arrays()
    requires target.biases != target.biasImportance
    requires from < source.biases.Length == source.biasImportance.Length
    requires to < target.biases.Length == target.biasImportance.Length
    modifies target.biases, target.biasImportance
    ensures target.biases[..] == old(target.biases[..])[to := source.biases[from]]
    ensures target.biasImportance[..] == old(target.biasImportance[..])[to := source.biasImportance[from]]
  {
    target.biases[to] := source.biases[from];
    target.biasImportance[to] := source.biasImportance[from];
  }

  /** The bias of unit `u`, copied to the bias of the same role. */
  method CopyBiasStep(source: Network, target: Network, s: Architecture, t: Architecture, ghost init: seq<real>,
                      u: Unit, r: Unit)
    requires Copying(s, t) && source.Arrays() !! target.Arrays()
    requires Received(source, target, s, t, init, u.layer, u.output, 0, u.output)
    requires ValidUnit(WidthsOf(s), u.layer, u.output) && r == UnitRole(s, t, u)
    modifies target.biases, target.biasImportance
    ensures Received(source, target, s, t, init, u.layer, u.output, 0, u.output + 1)
  {
    WellShapedWidths(s);
    WellShapedWidths(t);
    UnitRoleIsValid(s, t, u);
    BiasIndexInRange(WidthsOf(s), u.layer, u.output);
    BiasIndexInRange(WidthsOf(t), r.layer, r.output);
    CopyBias(s, t, source.biases[..], target.biases[..], u);
    CopyBias(s, t, source.biasImportance[..], target.biasImportance[..], u);
    hide WeightsCopied, BiasesCopied, UnitRole, BiasIndex, Contains, Accepts;
    CopyUnitBias(source, target, BiasIndex(WidthsOf(s), u.layer, u.output), BiasIndex(WidthsOf(t), r.layer, r.output));
  }

  /** One weight of a layer past the first, copied to the weight of the same role. */
  method CopyInput(source: Network, target: Network, s: Architecture, t: Architecture, ghost init: seq<real>,
                   c: Coord, d: Coord, ghost biases: nat)
    requires Copying(s, t) && source.Arrays() !! target.Arrays()
    requires Received(source, target, s, t, init, c.layer, c.output, c.input, biases)
    requires c.layer > 0 && ValidCoord(WidthsOf(s), c) && d == TargetRole(s, t, c)
    modifies target.weights, target.weightImportance
    ensures Received(source, target, s, t, init, c.layer, c.output, c.input + 1, biases)
  {
    WellShapedWidths(s);
    WellShapedWidths(t);
    TargetRoleIsValid(s, t, c);
    WeightIndexInRange(WidthsOf(s), c);
    WeightIndexInRange(WidthsOf(t), d);
    CopyOne(s, t, source.weights[..], init, target.weights[..], c.layer, c.output, c.input, c, c.input + 1);
    CopyOne(s, t, source.weightImportance[..], Zeros(|init|), target.weightImportance[..],
            c.layer, c.output, c.input, c, c.input + 1);
    hide WeightsCopied, BiasesCopied, TargetRole, WeightIndex, Contains, Accepts;
    CopyWeight(source, target, WeightIndex(WidthsOf(s), c), WeightIndex(WidthsOf(t), d));
  }

  /** One embedding dimension of a layer-0 row: its source-half weight, and its target-half weight shifted. */
  method CopyDimension(source: Network, target: Network, s: Architecture, t: Architecture, ghost init: seq<real>,
                       output: nat, dimension: nat, ghost biases: nat)
    requires Copying(s, t) && source.Arrays() !! target.Arrays()
    requires Received(source, target, s, t, init, 0, output, dimension, biases)
    requires dimension < s.embeddingDim && output < s.hiddenWidths[0]
    modifies target.weights, target.weightImportance
    ensures Received(source, target, s, t, init, 0, output, dimension + 1, biases)
  {
    WellShapedWidths(s);
    WellShapedWidths(t);
    var a, b := Coord(0, output, dimension), Coord(0, output, s.embeddingDim + dimension);
    var a', b' := Coord(0, output, dimension), Coord(0, output, t.embeddingDim + dimension);
    assert ValidCoord(WidthsOf(s), a) && ValidCoord(WidthsOf(s), b);
    TargetRoleIsValid(s, t, a);
    TargetRoleIsValid(s, t, b);
    assert a' == TargetRole(s, t, a) && b' == TargetRole(s, t, b);
    WeightIndexInRange(WidthsOf(s), a);
    WeightIndexInRange(WidthsOf(s), b);
    WeightIndexInRange(WidthsOf(t), a');
    WeightIndexInRange(WidthsOf(t), b');
    CopyPair(s, t, source.weights[..], init, target.weights[..], output, dimension, a, b);
    CopyPair(s, t, source.weightImportance[..], Zeros(|init|), target.weightImportance[..], output, dimension, a, b);
    hide WeightsCopied, BiasesCopied, TargetRole, WeightIndex, Contains, Accepts;
    CopyWeight(source, target, WeightIndex(WidthsOf(s), a), WeightIndex(WidthsOf(t), a'));
    CopyWeight(source, target, WeightIndex(WidthsOf(s), b), WeightIndex(WidthsOf(t), b'));
  }

  lemma ReceivedRow(source: Network, target: Network, s: Architecture, t: Architecture, init: seq<real>,
                    layer: nat, output: nat, biases: nat)
    requires Copying(s, t) && layer <= s.hiddenLayerCount
    requires Received(source, target, s, t, init, layer, output, RowSteps(s, layer), biases)
    ensures Received(source, target, s, t, init, layer, output + 1, 0, biases)
  {
    RowEnds(s, t, source.weights[..], init, target.weights[..], layer, output);
    RowEnds(s, t, source.weightImportance[..], Zeros(|init|), target.weightImportance[..], layer, output);
  }

  lemma ReceivedLayer(source: Network, target: Network, s: Architecture, t: Architecture, init: seq<real>,
                      layer: nat, outputs: nat)
    requires Copying(s, t) && (WellShapedWidths(s); layer < Layers(WidthsOf(s)) && outputs == WidthsOf(s)[layer + 1])
    requires Received(source, target, s, t, init, layer, outputs, 0, outputs)
    ensures Received(source, target, s, t, init, layer + 1, 0, 0, 0)
  {
    LayerEnds(s, t, source.weights[..], init, target.weights[..], layer, outputs);
    LayerEnds(s, t, source.weightImportance[..], Zeros(|init|), target.weightImportance[..], layer, outputs);
    BiasLayerEnds(s, t, source.biases[..], target.biases[..], layer, outputs);
    BiasLayerEnds(s, t, source.biasImportance[..], target.biasImportance[..], layer, outputs);
  }

  /** The inputs of a layer-0 row, dimension by dimension. */
  method CopyEmbeddingRow(source: Network, target: Network, s: Architecture, t: Architecture, ghost init: seq<real>,
                          output: nat)
    requires Copying(s, t) && source.Arrays() !! target.Arrays()
    requires output < s.hiddenWidths[0]
    requires Received(source, target, s, t, init, 0, output, 0, output + 1)
    modifies target.Arrays()
    ensures Received(source, target, s, t, init, 0, output, s.embeddingDim, output + 1)
  {
    hide Received, Contains, Accepts;
    for dimension := 0 to s.embeddingDim
      invariant Received(source, target, s, t, init, 0, output, dimension, output + 1)
    {
      CopyDimension(source, target, s, t, init, output, dimension, output + 1);
    }
  }

  /** The inputs of a row of a later layer. */
  method CopyInputRow(source: Network, target: Network, s: Architecture, t: Architecture, ghost init: seq<real>,
                      layer: nat, output: nat)
    requires Copying(s, t) && source.Arrays() !! target.Arrays()
    requires 0 < layer < s.hiddenLayerCount && output < s.hiddenWidths[layer]
    requires Received(source, target, s, t, init, layer, output, 0, output + 1)
    modifies target.Arrays()
    ensures Received(source, target, s, t, init, layer, output, s.hiddenWidths[layer - 1], output + 1)
  {
    WellShapedWidths(s);
    hide Received, WidthsOf, Contains, Accepts;
    for input := 0 to s.hiddenWidths[layer - 1]
      invariant Received(source, target, s, t, init, layer, output, input, output + 1)
    {
      CopyInput(source, target, s, t, init, Coord(layer, output, input), Coord(layer, output, input), output + 1);
    }
  }

  method CopyRow(source: Network, target: Network, s: Architecture, t: Architecture, ghost init: seq<real>,
                 layer: nat, output: nat)
    requires Copying(s, t) && source.Arrays() !! target.Arrays()
    requires layer < s.hiddenLayerCount && output < s.hiddenWidths[layer]
    requires Received(source, target, s, t, init, layer, output, 0, output)
    modifies target.Arrays()
    ensures Received(source, target, s, t, init, layer, output + 1, 0, output + 1)
  {
    WellShapedWidths(s);
    hide Received, WidthsOf, Contains, Accepts;
    CopyBiasStep(source, target, s, t, init, Unit(layer, output), Unit(layer, output));
    if layer == 0 {
      CopyEmbeddingRow(source, target, s, t, init, output);
    } else {
      CopyInputRow(source, target, s, t, init, layer, output);
    }
    ReceivedRow(source, target, s, t, init, layer, output, output + 1);
  }

  method CopyHiddenLayer(source: Network, target: Network, s: Architecture, t: Architecture, ghost init: seq<real>,
                         layer: nat)
    requires Copying(s, t) && source.Arrays() !! target.Arrays()
    requires layer < s.hiddenLayerCount
    requires Received(source, target, s, t, init, layer, 0, 0, 0)
    modifies target.Arrays()
    ensures Received(source, target, s, t, init, layer + 1, 0, 0, 0)
  {
    WellShapedWidths(s);
    hide Received, WidthsOf, Contains, Accepts;
    for output := 0 to s.hiddenWidths[layer]
      invariant Received(source, target, s, t, init, layer, output, 0, output)
    {
      CopyRow(source, target, s, t, init, layer, output);
    }
    ReceivedLayer(source, target, s, t, init, layer, s.hiddenWidths[layer]);
  }

  /** The scalar output layer follows the last hidden layer, wherever the target puts it. */
  method CopyOutputLayer(source: Network, target: Network, s: Architecture, t: Architecture, ghost init: seq<real>)
    requires Copying(s, t) && source.Arrays() !! target.Arrays()
    requires Received(source, target, s, t, init, s.hiddenLayerCount, 0, 0, 0)
    modifies target.Arrays()
    ensures Received(source, target, s, t, init, s.hiddenLayerCount + 1, 0, 0, 0)
  {
    WellShapedWidths(s);
    hide Received, WidthsOf;
    var sourceLayer, targetLayer := s.hiddenLayerCount, t.hiddenLayerCount;
    CopyBiasStep(source, target, s, t, init, Unit(sourceLayer, 0), Unit(targetLayer, 0));
    for input := 0 to s.hiddenWidths[sourceLayer - 1]
      invariant Received(source, target, s, t, init, sourceLayer, 0, input, 1)
    {
      CopyInput(source, target, s, t, init, Coord(sourceLayer, 0, input), Coord(targetLayer, 0, input), 1);
    }
    ReceivedRow(source, target, s, t, init, sourceLayer, 0, 1);
    ReceivedLayer(source, target, s, t, init, sourceLayer, 1);
  }

  // ---------------------------------------------------------------- the transaction

  /** Advance the migration's own generator by one draw. */
  method NextDraw(ghost m: Migration, ghost k: nat, state: Rng) returns (next: Rng, draw: real)
    requires state == StateAfter(m, k)
    ensures next == StateAfter(m, k + 1) && draw == Draw(m, k)
    ensures WeightScaled(draw) == NewWeight(m, k)
  {
    next := NextState(state);
    draw := Signed(next);
  }

  method StartDraws(m: Migration) returns (rng: Rng)
    ensures rng == StateAfter(m, 0)
  {
    rng := StartState(m);
  }

  method DrawAll(a: array<real>, m: Migration) returns (rng: Rng)
    modifies a
    ensures forall j :: 0 <= j < a.Length ==> a[j] == NewWeight(m, j)
    ensures rng == StateAfter(m, a.Length)
  {
    hide StateAfter, NewWeight, WeightScaled, Draw;
    rng := StartDraws(m);
    for i := 0 to a.Length
      invariant rng == StateAfter(m, i)
      invariant forall j :: 0 <= j < i ==> a[j] == NewWeight(m, j)
    {
      var draw;
      rng, draw := NextDraw(m, i, rng);
      a[i] := WeightScaled(draw);
    }
  }

  method ZeroOut(a: array<real>)
    modifies a
    ensures a[..] == Zeros(a.Length)
  {
    for i := 0 to a.Length
      invariant forall j :: 0 <= j < i ==> a[j] == 0.0
    {
      a[i] := 0.0;
    }
  }

  /** The larger network before anything is copied: every weight drawn, everything else zero. */
  method DrawNetwork(m: Migration) returns (scratch: Network, rng: Rng)
    requires ValidMigration(m)
    ensures (WellShapedWidths(m.target); scratch.Shaped(WidthsOf(m.target)))
    ensures fresh(scratch) && fresh(scratch.Arrays())
    ensures scratch.weights[..] == InitialWeights(m)
    ensures scratch.weightImportance[..] == Zeros(scratch.weights.Length)
    ensures scratch.biases[..] == scratch.biasImportance[..] == Zeros(scratch.biases.Length)
    ensures rng == StateAfter(m, scratch.weights.Length)
  {
    WellShapedWidths(m.target);
    hide WidthsOf, Accepts, Contains, StateAfter, NewWeight;
    scratch := new Network(WidthsOf(m.target));
    assert scratch.weights in scratch.Arrays() && scratch.biases in scratch.Arrays();
    assert scratch.weightImportance in scratch.Arrays() && scratch.biasImportance in scratch.Arrays();
    rng := DrawAll(scratch.weights, m);
    assert scratch.weights[..] == InitialWeights(m);
    ZeroOut(scratch.biases);
    ZeroOut(scratch.weightImportance);
    ZeroOut(scratch.biasImportance);
  }

  ghost function InitialWeights(m: Migration): seq<real>
    requires ValidMigration(m)
  {
    WellShapedWidths(m.target);
    seq(WeightCount(WidthsOf(m.target)), j requires 0 <= j => NewWeight(m, j))
  }

  /** One node's vectors at the target width; new dimensions take the next draws. */
  method GrowVectors(m: Migration, ghost n: nat, v: Vectors, state: Rng) returns (grown: Vectors, rng: Rng)
    requires ValidMigration(m) && VectorsFit(m.source.embeddingDim, v)
    requires (WellShapedWidths(m.target); state == StateAfter(m, FirstDraw(m, n)))
    ensures grown == ExpandVectors(m, n, v)
    ensures rng == StateAfter(m, FirstDraw(m, n + 1))
  {
    hide StateAfter, Draw, FirstDraw, NewEmbedding, WidthsOf, ExpandVectors, ValidMigration, EmbeddingScaled;
    GrowStarts(m, n, v);
    NextFirstDraw(m, n);
    var s: nat, t: nat := m.source.embeddingDim, m.target.embeddingDim;
    ghost var full := ExpandVectors(m, n, v);
    var embedding, importance := v.embedding, v.importance;
    rng := state;
    for d := s to t
      invariant embedding == full.embedding[..d] && importance == full.importance[..d]
      invariant rng == StateAfter(m, FirstDraw(m, n) + (d - s))
    {
      var draw;
      ghost var k := FirstDraw(m, n) + (d - s);
      rng, draw := NextDraw(m, k, rng);
      NewDimension(m, n, v, d);
      embedding, importance := embedding + [EmbeddingScaled(draw)], importance + [0.0];
      assert full.embedding[..d + 1] == full.embedding[..d] + [full.embedding[d]];
      assert full.importance[..d + 1] == full.importance[..d] + [full.importance[d]];
    }
    grown := Vectors(embedding, importance);
  }

  lemma GrowStarts(m: Migration, n: nat, v: Vectors)
    requires ValidMigration(m) && VectorsFit(m.source.embeddingDim, v)
    ensures var s, t, full := m.source.embeddingDim, m.target.embeddingDim, ExpandVectors(m, n, v);
            && s <= t == |full.embedding| == |full.importance|
            && full.embedding[..s] == v.embedding && full.importance[..s] == v.importance
            && full.embedding[..t] == full.embedding && full.importance[..t] == full.importance
  {
    hide NewEmbedding;
  }

  lemma NewDimension(m: Migration, n: nat, v: Vectors, d: nat)
    requires ValidMigration(m) && VectorsFit(m.source.embeddingDim, v)
    requires m.source.embeddingDim <= d < m.target.embeddingDim
    ensures var grown := ExpandVectors(m, n, v);
            && |grown.embedding| == |grown.importance| == m.target.embeddingDim
            && grown.embedding[d] == EmbeddingScaled(Draw(m, FirstDraw(m, n) + (d - m.source.embeddingDim)))
            && grown.importance[d] == 0.0
  {
    hide Draw;
  }

  /** The number of draws made before node `n`. */
  ghost function FirstDraw(m: Migration, n: nat): nat
    requires ValidMigration(m)
  {
    WellShapedWidths(m.target);
    EmbeddingDraw(WeightCount(WidthsOf(m.target)), m.target.embeddingDim - m.source.embeddingDim, n, 0)
  }

  lemma NextFirstDraw(m: Migration, n: nat)
    requires ValidMigration(m)
    ensures FirstDraw(m, n + 1) == FirstDraw(m, n) + (m.target.embeddingDim - m.source.embeddingDim)
  {
    var growth: nat := m.target.embeddingDim - m.source.embeddingDim;
    assert (n + 1) * growth == n * growth + growth;
  }

  /** The whole copy: hidden layers in order, then the output layer. */
  method CopyNetwork(source: Network, target: Network, m: Migration)
    requires ValidMigration(m) && source.Arrays() !! target.Arrays()
    requires ParamsFit(m.source, source.Value())
    requires (WellShapedWidths(m.source); source.Shaped(WidthsOf(m.source)))
    requires (WellShapedWidths(m.target); target.Shaped(WidthsOf(m.target)))
    requires target.weights[..] == InitialWeights(m)
    requires target.weightImportance[..] == Zeros(target.weights.Length)
    requires target.biases[..] == target.biasImportance[..] == Zeros(target.biases.Length)
    modifies target.Arrays()
    ensures target.Value() == ExpandParams(m, source.Value())
  {
    ghost var init := InitialWeights(m);
    ReceivedStarts(source, target, m);
    hide Received;
    for layer := 0 to m.source.hiddenLayerCount
      invariant Received(source, target, m.source, m.target, init, layer, 0, 0, 0)
    {
      CopyHiddenLayer(source, target, m.source, m.target, init, layer);
    }
    CopyOutputLayer(source, target, m.source, m.target, init);
    ReceivedAll(source, target, m);
  }

  lemma ReceivedStarts(source: Network, target: Network, m: Migration)
    requires ValidMigration(m)
    requires (WellShapedWidths(m.source); source.Shaped(WidthsOf(m.source)))
    requires (WellShapedWidths(m.target); target.Shaped(WidthsOf(m.target)))
    requires target.weights[..] == InitialWeights(m)
    requires target.weightImportance[..] == Zeros(target.weights.Length)
    requires target.biases[..] == target.biasImportance[..] == Zeros(target.biases.Length)
    ensures Received(source, target, m.source, m.target, InitialWeights(m), 0, 0, 0, 0)
  {
    CopyStarts(m.source, m.target, source.weights[..], target.weights[..]);
    CopyStarts(m.source, m.target, source.weightImportance[..], target.weightImportance[..]);
  }

  lemma ReceivedAll(source: Network, target: Network, m: Migration)
    requires ValidMigration(m) && ParamsFit(m.source, source.Value())
    requires Received(source, target, m.source, m.target, InitialWeights(m), m.source.hiddenLayerCount + 1, 0, 0, 0)
    ensures target.Value() == ExpandParams(m, source.Value())
  {
    var s, t := m.source, m.target;
    var init := InitialWeights(m);
    WellShapedWidths(t);
    CopyEnds(s, t, source.weights[..], init, target.weights[..]);
    CopyEnds(s, t, source.weightImportance[..], Zeros(|init|), target.weightImportance[..]);
    BiasCopyEnds(s, t, source.biases[..], target.biases[..]);
    BiasCopyEnds(s, t, source.biasImportance[..], target.biasImportance[..]);
    hide MixedWeight, MixedBias, Contains, Accepts, NewWeight;
    var p, q := target.Value(), ExpandParams(m, source.Value());
    assert p.weights == q.weights;
    assert p.biases == q.biases;
    assert p.weightImportance == q.weightImportance;
    assert p.biasImportance == q.biasImportance;
  }

  const NETWORK_BUFFERS: nat := 6

  /** Allocations one expansion makes: the network's buffers, the vector table, two vectors a node, the history. */
  function AllocationsNeeded(nodes: nat): nat {
    NETWORK_BUFFERS + (if nodes == 0 then 0 else 1 + 2 * nodes) + 1
  }

  /** New vectors for every node, in node order, or nothing when memory runs out on the way. */
  method GrowAllVectors(graph: Graph, m: Migration, state: Rng, memory: nat)
    returns (ok: bool, vectors: seq<Vectors>, left: nat)
    requires graph.Valid() && ValidMigration(m) && graph.architecture == m.source
    requires (WellShapedWidths(m.target); state == StateAfter(m, FirstDraw(m, 0)))
    ensures ok <==> memory >= 2 * |graph.nodes|
    ensures ok ==> left == memory - 2 * |graph.nodes| && |vectors| == |graph.nodes|
    ensures ok ==> forall n :: 0 <= n < |vectors| ==> vectors[n] == ExpandVectors(m, n, NodeValue(graph.nodes[n]))
  {
    hide StateAfter, FirstDraw, ExpandVectors, ValidMigration, Accepts;
    vectors, left := [], memory;
    var rng := state;
    for n := 0 to |graph.nodes|
      invariant memory >= 2 * n && left == memory - 2 * n && |vectors| == n
      invariant rng == StateAfter(m, FirstDraw(m, n))
      invariant forall k :: 0 <= k < n ==> vectors[k] == ExpandVectors(m, k, NodeValue(graph.nodes[k]))
    {
      if left < 2 {
        return false, [], left;
      }
      left := left - 2;
      var grown;
      grown, rng := GrowVectors(m, n, NodeValue(graph.nodes[n]), rng);
      vectors := vectors + [grown];
    }
    ok := true;
  }

  /** The commit: every node receives its new vectors. */
  method CommitVectors(nodes: seq<Node>, vectors: seq<Vectors>)
    requires |vectors| == |nodes|
    requires forall i, j :: 0 <= i < j < |nodes| ==> nodes[i] != nodes[j]
    modifies nodes
    ensures forall n :: 0 <= n < |nodes| ==> NodeValue(nodes[n]) == vectors[n]
  {
    for n := 0 to |nodes|
      invariant forall k :: 0 <= k < n ==> NodeValue(nodes[k]) == vectors[k]
    {
      nodes[n].embedding, nodes[n].importance := vectors[n].embedding, vectors[n].importance;
    }
  }

  lemma FirstDrawFollowsWeights(m: Migration)
    requires ValidMigration(m)
    ensures (WellShapedWidths(m.target); FirstDraw(m, 0) == WeightCount(WidthsOf(m.target)))
  {
  }

  /** What the swap leaves is the expanded value. */
  lemma CommittedIsExpanded(before: GraphValue, after: GraphValue, m: Migration)
    requires Fits(before) && CanExpand(before, m)
    requires after.architecture == m.target && after.history == before.history + [m]
    requires after.rngState == before.rngState && after.params == ExpandParams(m, before.params)
    requires |after.nodes| == |before.nodes|
    requires forall n :: 0 <= n < |after.nodes| ==> after.nodes[n] == ExpandVectors(m, n, before.nodes[n])
    ensures after == Expand(before, m)
  {
    hide ExpandVectors, ExpandParams, ValidMigration, Accepts;
    assert after.nodes == Expand(before, m).nodes;
  }

  /** Allocate and fill every replacement before anything authoritative is touched. */
  method Prepare(graph: Graph, m: Migration, memory: nat) returns (ok: bool, scratch: Network, vectors: seq<Vectors>)
    requires graph.Valid() && ValidMigration(m) && graph.architecture == m.source
    requires ParamsFit(m.source, graph.network.Value())
    ensures ok <==> memory >= AllocationsNeeded(|graph.nodes|)
    ensures ok ==> (WellShapedWidths(m.target); scratch.Shaped(WidthsOf(m.target))) && fresh(scratch)
    ensures ok ==> scratch.Value() == ExpandParams(m, graph.network.Value())
    ensures ok ==> |vectors| == |graph.nodes| &&
                   forall n :: 0 <= n < |vectors| ==> vectors[n] == ExpandVectors(m, n, NodeValue(graph.nodes[n]))
  {
    hide ExpandParams, ExpandVectors, StateAfter, FirstDraw, WidthsOf;
    scratch, vectors := graph.network, [];
    if memory < NETWORK_BUFFERS {
      return false, scratch, vectors;
    }
    var rng;
    scratch, rng := DrawNetwork(m);
    FirstDrawFollowsWeights(m);
    var left := memory - NETWORK_BUFFERS;
    if |graph.nodes| != 0 {
      if left == 0 {
        return false, scratch, vectors;
      }
      left := left - 1;
    }
    ok, vectors, left := GrowAllVectors(graph, m, rng, left);
    if !ok {
      return;
    }
    CopyNetwork(graph.network, scratch, m);
    ok := left > 0;
  }

  /** The commit point: nothing below it can fail. */
  method Commit(graph: Graph, m: Migration, scratch: Network, vectors: seq<Vectors>)
    requires graph.Valid() && Fits(graph.State()) && CanExpand(graph.State(), m)
    requires (WellShapedWidths(m.target); scratch.Shaped(WidthsOf(m.target)))
    requires scratch.Value() == ExpandParams(m, graph.network.Value())
    requires |vectors| == |graph.nodes|
    requires forall n :: 0 <= n < |vectors| ==> vectors[n] == ExpandVectors(m, n, NodeValue(graph.nodes[n]))
    modifies graph`network, graph`architecture, graph`history, graph.nodes
    ensures graph.State() == old(Expand(graph.State(), m))
    ensures graph.Valid()
  {
    hide Expand, ExpandParams, ExpandVectors, ValidMigration, Accepts, WidthsOf;
    ghost var before := graph.State();
    CommitVectors(graph.nodes, vectors);
    graph.network := scratch;
    graph.architecture := m.target;
    graph.history := graph.history + [m];
    CommittedIsExpanded(before, graph.State(), m);
    CommittedIsValid(graph);
  }

  lemma CommittedIsValid(graph: Graph)
    requires Fits(graph.State()) && (WellShapedWidths(graph.architecture); graph.network.Shaped(WidthsOf(graph.architecture)))
    requires forall i, j :: 0 <= i < j < |graph.nodes| ==> graph.nodes[i] != graph.nodes[j]
    ensures graph.Valid()
  {
    forall i | 0 <= i < |graph.nodes|
      ensures VectorsFit(graph.architecture.embeddingDim, NodeValue(graph.nodes[i]))
    {
      assert graph.State().nodes[i] == NodeValue(graph.nodes[i]);
    }
  }

  /**
   Expand a live graph. `memory` is the number of allocations that will succeed. The migration is
   refused exactly when it is invalid, starts from another architecture or goes back before the
   last recorded boundary; it fails for memory exactly when an allocation fails; otherwise the
   graph becomes its expanded value. On every failure the graph is exactly what it was.
   */
  method ExpandNeural(graph: Graph, m: Migration, memory: nat) returns (status: Status)
    requires graph.Valid()
    modifies graph`network, graph`architecture, graph`history, graph.nodes
    ensures graph.Valid() && Fits(old(graph.State()))
    ensures status == if !CanExpand(old(graph.State()), m) then MigrationError
                      else if memory < AllocationsNeeded(|old(graph.nodes)|) then OutOfMemory else Ok
    ensures graph.State() == if status == Ok then Expand(old(graph.State()), m) else old(graph.State())
  {
    hide Expand, ExpandParams, ExpandVectors, ValidMigration, Accepts, Fits, WidthsOf;
    graph.ValidFits();
    graph.ValidParams();
    ghost var before := graph.State();
    var valid := Validate(m);
    if !valid {
      return MigrationError;
    }
    if graph.architecture != m.source {
      return MigrationError;
    }
    if |graph.history| != 0 && m.boundary < graph.history[|graph.history| - 1].boundary {
      return MigrationError;
    }
    var ok, scratch, vectors := Prepare(graph, m, memory);
    assert graph.State() == before;
    if !ok {
      return OutOfMemory;
    }
    Commit(graph, m, scratch, vectors);
    return Ok;
  }
}
