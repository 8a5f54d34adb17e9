/**
 What expanding a learned network means, on values: every place of the larger network either
 continues the parameter whose role it has or holds a draw that depends only on seed, version and
 shape. Chains of expansions keep every parameter at its role.
 */
module NeuralExpansion {
  import opened Options
  import opened NeuralLayout
  import opened NeuralRoles

  datatype Params = Params(weights: seq<real>, biases: seq<real>,
                           weightImportance: seq<real>, biasImportance: seq<real>)

  datatype Vectors = Vectors(embedding: seq<real>, importance: seq<real>)

  datatype GraphValue = GraphValue(
    architecture: Architecture, params: Params, nodes: seq<Vectors>,
    history: seq<Migration>, rngState: Rng)

  function WeightScaled(draw: real): real {
    draw * 0.12
  }

  function EmbeddingScaled(draw: real): real {
    draw * 0.05
  }

  predicate ParamsFit(a: Architecture, p: Params)
    requires WellShaped(a)
  {
    WellShapedWidths(a);
    && |p.weights| == |p.weightImportance| == WeightCount(WidthsOf(a))
    && |p.biases| == |p.biasImportance| == BiasCount(WidthsOf(a))
  }

  predicate VectorsFit(dim: nat, v: Vectors) {
    |v.embedding| == |v.importance| == dim
  }

  predicate Fits(g: GraphValue) {
    && Accepts(g.architecture)
    && ParamsFit(g.architecture, g.params)
    && forall n :: 0 <= n < |g.nodes| ==> VectorsFit(g.architecture.embeddingDim, g.nodes[n])
  }

  predicate CanExpand(g: GraphValue, m: Migration) {
    && ValidMigration(m)
    && g.architecture == m.source
    && (g.history != [] ==> g.history[|g.history| - 1].boundary <= m.boundary)
  }

  // ---------------------------------------------------------------- one expansion

  /** The value at place `j`: what it continues, or what it would be initialised to. */
  function MixedWeight(s: Architecture, t: Architecture, old_: seq<real>, fresh_: real, j: nat): real
    requires Contains(s, t) && (WellShapedWidths(s); |old_| == WeightCount(WidthsOf(s)))
    requires (WellShapedWidths(t); j < WeightCount(WidthsOf(t)))
  {
    match Origin(s, t, j)
    case Some(c) => WeightIndexInRange(WidthsOf(s), c); old_[WeightIndex(WidthsOf(s), c)]
    case None => fresh_
  }

  function MixedBias(s: Architecture, t: Architecture, old_: seq<real>, j: nat): real
    requires Contains(s, t) && (WellShapedWidths(s); |old_| == BiasCount(WidthsOf(s)))
    requires (WellShapedWidths(t); j < BiasCount(WidthsOf(t)))
  {
    match BiasOrigin(s, t, j)
    case Some(u) => BiasIndexInRange(WidthsOf(s), u.layer, u.output); old_[BiasIndex(WidthsOf(s), u.layer, u.output)]
    case None => 0.0
  }

  /** The fresh weight at flat place `j`. */
  function NewWeight(m: Migration, j: nat): real {
    WeightScaled(Draw(m, j))
  }

  /** Embedding draws follow the weight draws, one run of new dimensions per node. */
  function EmbeddingDraw(weights: nat, growth: nat, n: nat, k: nat): nat {
    weights + n * growth + k
  }

  /** The fresh embedding value of new dimension `d` of node `n`. */
  function NewEmbedding(m: Migration, n: nat, d: nat): real
    requires ValidMigration(m) && m.source.embeddingDim <= d
  {
    WellShapedWidths(m.target);
    EmbeddingScaled(Draw(m, EmbeddingDraw(WeightCount(WidthsOf(m.target)),
                                          m.target.embeddingDim - m.source.embeddingDim,
                                          n, d - m.source.embeddingDim)))
  }

  function ExpandVectors(m: Migration, n: nat, v: Vectors): Vectors
    requires ValidMigration(m) && VectorsFit(m.source.embeddingDim, v)
  {
    var s, t := m.source.embeddingDim, m.target.embeddingDim;
    Vectors(seq(t, d requires 0 <= d < t => if d < s then v.embedding[d] else NewEmbedding(m, n, d)),
            seq(t, d requires 0 <= d < t => if d < s then v.importance[d] else 0.0))
  }

  function ExpandParams(m: Migration, p: Params): Params
    requires ValidMigration(m) && ParamsFit(m.source, p)
  {
    var s, t := m.source, m.target;
    WellShapedWidths(s);
    WellShapedWidths(t);
    var weights, biases := WeightCount(WidthsOf(t)), BiasCount(WidthsOf(t));
    Params(
      seq(weights, j requires 0 <= j < weights => MixedWeight(s, t, p.weights, NewWeight(m, j), j)),
      seq(biases, j requires 0 <= j < biases => MixedBias(s, t, p.biases, j)),
      seq(weights, j requires 0 <= j < weights => MixedWeight(s, t, p.weightImportance, 0.0, j)),
      seq(biases, j requires 0 <= j < biases => MixedBias(s, t, p.biasImportance, j)))
  }

  function Expand(g: GraphValue, m: Migration): (r: GraphValue)
    requires Fits(g) && CanExpand(g, m)
    ensures Fits(r)
  {
    GraphValue(
      m.target,
      ExpandParams(m, g.params),
      seq(|g.nodes|, n requires 0 <= n < |g.nodes| => ExpandVectors(m, n, g.nodes[n])),
      g.history + [m],
      g.rngState)
  }

  function WeightAt(g: GraphValue, c: Coord): real
    requires Fits(g) && ValidCoord(WidthsOf(g.architecture), c)
  {
    WeightIndexInRange(WidthsOf(g.architecture), c);
    g.params.weights[WeightIndex(WidthsOf(g.architecture), c)]
  }

  function WeightImportanceAt(g: GraphValue, c: Coord): real
    requires Fits(g) && ValidCoord(WidthsOf(g.architecture), c)
  {
    WeightIndexInRange(WidthsOf(g.architecture), c);
    g.params.weightImportance[WeightIndex(WidthsOf(g.architecture), c)]
  }

  function BiasAt(g: GraphValue, u: Unit): real
    requires Fits(g) && ValidUnit(WidthsOf(g.architecture), u.layer, u.output)
  {
    BiasIndexInRange(WidthsOf(g.architecture), u.layer, u.output);
    g.params.biases[BiasIndex(WidthsOf(g.architecture), u.layer, u.output)]
  }

  function BiasImportanceAt(g: GraphValue, u: Unit): real
    requires Fits(g) && ValidUnit(WidthsOf(g.architecture), u.layer, u.output)
  {
    BiasIndexInRange(WidthsOf(g.architecture), u.layer, u.output);
    g.params.biasImportance[BiasIndex(WidthsOf(g.architecture), u.layer, u.output)]
  }

  /** Every learned weight and its importance are found at the weight's role in the expanded network. */
  lemma ExpandKeepsWeight(g: GraphValue, m: Migration, c: Coord)
    requires Fits(g) && CanExpand(g, m) && ValidCoord(WidthsOf(g.architecture), c)
    ensures var r := TargetRole(m.source, m.target, c);
            && ValidCoord(WidthsOf(m.target), r)
            && WeightAt(Expand(g, m), r) == WeightAt(g, c)
            && WeightImportanceAt(Expand(g, m), r) == WeightImportanceAt(g, c)
  {
    hide WidthsOf, WeightIndex, TargetRole, Origin;
    TargetRoleIsValid(m.source, m.target, c);
    WellShapedWidths(m.target);
    OriginIff(m.source, m.target, Place(m.source, m.target, c), c);
  }

  lemma ExpandKeepsBias(g: GraphValue, m: Migration, u: Unit)
    requires Fits(g) && CanExpand(g, m) && ValidUnit(WidthsOf(g.architecture), u.layer, u.output)
    ensures var r := UnitRole(m.source, m.target, u);
            && ValidUnit(WidthsOf(m.target), r.layer, r.output)
            && BiasAt(Expand(g, m), r) == BiasAt(g, u)
            && BiasImportanceAt(Expand(g, m), r) == BiasImportanceAt(g, u)
  {
    hide WidthsOf, BiasIndex, UnitRole, BiasOrigin;
    UnitRoleIsValid(m.source, m.target, u);
    WellShapedWidths(m.target);
    BiasOriginIff(m.source, m.target, BiasPlace(m.source, m.target, u), u);
  }

  /**
   Every coordinate that continues nothing is a function of seed, version and shape alone: the
   weight at flat place `j` is draw `j`, and its importance is zero.
   */
  lemma NewWeightsAreDraws(g: GraphValue, m: Migration, d: Coord)
    requires Fits(g) && CanExpand(g, m) && ValidCoord(WidthsOf(m.target), d)
    requires SourceRole(m.source, m.target, d) == None
    ensures WeightAt(Expand(g, m), d) == Draw(m, WeightIndex(WidthsOf(m.target), d)) * 0.12
    ensures WeightImportanceAt(Expand(g, m), d) == 0.0
  {
    hide WidthsOf, WeightIndex, SourceRole, Draw, Locate;
    var w := WidthsOf(m.target);
    WeightIndexInRange(w, d);
    var j := WeightIndex(w, d);
    LocateIsInverse(w, j);
    WeightIndexIsInjective(w, Locate(w, j), d);
    assert Origin(m.source, m.target, j) == None;
  }

  lemma NewBiasesAreZero(g: GraphValue, m: Migration, r: Unit)
    requires Fits(g) && CanExpand(g, m) && ValidUnit(WidthsOf(m.target), r.layer, r.output)
    requires SourceUnit(m.source, m.target, r) == None
    ensures BiasAt(Expand(g, m), r) == 0.0 && BiasImportanceAt(Expand(g, m), r) == 0.0
  {
    hide WidthsOf, BiasIndex, SourceUnit, LocateUnit;
    var w := WidthsOf(m.target);
    BiasIndexInRange(w, r.layer, r.output);
    var u := LocateUnit(w, BiasIndex(w, r.layer, r.output));
    BiasIndexIsInjective(w, u.layer, u.output, r.layer, r.output);
    assert BiasOrigin(m.source, m.target, BiasIndex(w, r.layer, r.output)) == None;
  }

  /** Old embedding dimensions are kept; new ones are the draws after the weights, node by node. */
  lemma ExpandedEmbeddings(g: GraphValue, m: Migration, n: nat, d: nat)
    requires Fits(g) && CanExpand(g, m) && n < |g.nodes| && d < m.target.embeddingDim
    ensures var v, v' := g.nodes[n], Expand(g, m).nodes[n];
            if d < m.source.embeddingDim then
              v'.embedding[d] == v.embedding[d] && v'.importance[d] == v.importance[d]
            else
              v'.embedding[d] == NewEmbedding(m, n, d) && v'.importance[d] == 0.0
  {
  }

  /** The node and the new dimension that draw `k` belongs to. */
  function DrawNode(weights: nat, grown: nat, k: nat): nat
    requires grown > 0 && k >= weights
  {
    (k - weights) / grown
  }

  function DrawDimension(weights: nat, grown: nat, k: nat): nat
    requires grown > 0 && k >= weights
  {
    (k - weights) % grown
  }

  /** With `grown` new dimensions on each of `nodes` nodes, the draws that follow the weights' draws. */
  predicate EmbeddingRange(weights: nat, grown: nat, nodes: nat, k: nat) {
    weights <= k < weights + nodes * grown
  }

  /**
   The draws are shared out exactly: every new dimension's draw is in the range, and each draw of the
   range belongs to exactly one dimension of one node, found by dividing.
   */
  lemma EveryDrawIsUsedOnce(weights: nat, grown: nat, nodes: nat, k: nat, n: nat, d: nat)
    requires EmbeddingRange(weights, grown, nodes, k)
    ensures k >= weights && grown > 0
    ensures DrawNode(weights, grown, k) < nodes && DrawDimension(weights, grown, k) < grown
    ensures n < nodes && d < grown ==> EmbeddingRange(weights, grown, nodes, EmbeddingDraw(weights, grown, n, d))
    ensures d < grown ==>
              (EmbeddingDraw(weights, grown, n, d) == k <==>
               n == DrawNode(weights, grown, k) && d == DrawDimension(weights, grown, k))
  {
    assert grown == 0 ==> nodes * grown == 0;
    if grown > 0 {
      RowAndColumn(nodes, grown, k - weights);
      if d < grown {
        QuotientIsUnique(grown, n, d);
        if n < nodes {
          RowMajor(nodes, grown, n, d);
        }
      }
    }
  }

  /**
   So in the expanded graph each draw after the weights' is the value of exactly one new dimension of
   one node, whose importance is zero.
   */
  lemma NewEmbeddingsAreDraws(g: GraphValue, m: Migration, k: nat)
    requires Fits(g) && CanExpand(g, m)
    requires (WellShapedWidths(m.target);
              EmbeddingRange(WeightCount(WidthsOf(m.target)), m.target.embeddingDim - m.source.embeddingDim, |g.nodes|, k))
    ensures (WellShapedWidths(m.target);
             var w, s := WeightCount(WidthsOf(m.target)), m.source.embeddingDim;
             var grown := m.target.embeddingDim - s;
             && grown > 0 && DrawNode(w, grown, k) < |g.nodes| && DrawDimension(w, grown, k) < grown
             && var v, d := Expand(g, m).nodes[DrawNode(w, grown, k)], s + DrawDimension(w, grown, k);
                v.embedding[d] == Draw(m, k) * 0.05 && v.importance[d] == 0.0)
  {
    hide WidthsOf, Draw, Expand, DrawNode, DrawDimension, EmbeddingDraw, EmbeddingRange, WeightCount;
    WellShapedWidths(m.target);
    var w, s := WeightCount(WidthsOf(m.target)), m.source.embeddingDim;
    var grown := m.target.embeddingDim - s;
    EveryDrawIsUsedOnce(w, grown, |g.nodes|, k, 0, 0);
    var n, d := DrawNode(w, grown, k), DrawDimension(w, grown, k);
    EveryDrawIsUsedOnce(w, grown, |g.nodes|, k, n, d);
    ExpandedEmbeddings(g, m, n, s + d);
  }

  // ---------------------------------------------------------------- chains of expansions

  /** The recorded history is a valid chain that ends at the present architecture. */
  predicate HistoryCoherent(g: GraphValue) {
    Chain(g.history) && (g.history != [] ==> g.history[|g.history| - 1].target == g.architecture)
  }

  predicate CanExpandAll(g: GraphValue, ms: seq<Migration>)
    requires Fits(g)
    decreases |ms|
  {
    ms == [] || (CanExpand(g, ms[0]) && CanExpandAll(Expand(g, ms[0]), ms[1..]))
  }

  function ExpandAll(g: GraphValue, ms: seq<Migration>): (r: GraphValue)
    requires Fits(g) && CanExpandAll(g, ms)
    ensures Fits(r)
    decreases |ms|
  {
    if ms == [] then g else ExpandAll(Expand(g, ms[0]), ms[1..])
  }

  function ChainRole(ms: seq<Migration>, c: Coord): Coord
    decreases |ms|
  {
    if ms == [] then c else ChainRole(ms[1..], TargetRole(ms[0].source, ms[0].target, c))
  }

  function ChainUnit(ms: seq<Migration>, u: Unit): Unit
    decreases |ms|
  {
    if ms == [] then u else ChainUnit(ms[1..], UnitRole(ms[0].source, ms[0].target, u))
  }

  /** Across any chain, every learned weight and bias stays at its role with its importance. */
  lemma {:induction false} ChainKeepsParameters(g: GraphValue, ms: seq<Migration>, c: Coord, u: Unit)
    requires Fits(g) && CanExpandAll(g, ms)
    requires ValidCoord(WidthsOf(g.architecture), c) && ValidUnit(WidthsOf(g.architecture), u.layer, u.output)
    ensures var g', c', u' := ExpandAll(g, ms), ChainRole(ms, c), ChainUnit(ms, u);
            && ValidCoord(WidthsOf(g'.architecture), c')
            && WeightAt(g', c') == WeightAt(g, c)
            && WeightImportanceAt(g', c') == WeightImportanceAt(g, c)
            && ValidUnit(WidthsOf(g'.architecture), u'.layer, u'.output)
            && BiasAt(g', u') == BiasAt(g, u)
            && BiasImportanceAt(g', u') == BiasImportanceAt(g, u)
    decreases |ms|
  {
    hide WidthsOf, ValidCoord, ValidUnit, WeightAt, WeightImportanceAt, BiasAt, BiasImportanceAt, Fits, CanExpand;
    if ms != [] {
      ExpandKeepsWeight(g, ms[0], c);
      ExpandKeepsBias(g, ms[0], u);
      assert Expand(g, ms[0]).architecture == ms[0].target;
      ChainKeepsParameters(Expand(g, ms[0]), ms[1..], TargetRole(ms[0].source, ms[0].target, c),
                           UnitRole(ms[0].source, ms[0].target, u));
    }
  }

  /** Across any chain, every learned embedding value of every node stays at its dimension. */
  lemma {:induction false} ChainKeepsEmbeddings(g: GraphValue, ms: seq<Migration>, n: nat, d: nat)
    requires Fits(g) && CanExpandAll(g, ms) && n < |g.nodes| && d < g.architecture.embeddingDim
    ensures var g' := ExpandAll(g, ms);
            && n < |g'.nodes| && d < g'.architecture.embeddingDim
            && g'.nodes[n].embedding[d] == g.nodes[n].embedding[d]
            && g'.nodes[n].importance[d] == g.nodes[n].importance[d]
    decreases |ms|
  {
    if ms != [] {
      ExpandedEmbeddings(g, ms[0], n, d);
      ChainKeepsEmbeddings(Expand(g, ms[0]), ms[1..], n, d);
    }
  }

  lemma ExpandKeepsHistory(g: GraphValue, m: Migration)
    requires Fits(g) && HistoryCoherent(g) && CanExpand(g, m)
    ensures HistoryCoherent(Expand(g, m))
  {
    hide Fits, ValidMigration, ExpandParams, ExpandVectors;
  }

  /** The history grows by exactly the applied migrations and stays contiguous and ordered. */
  lemma {:induction false} ChainKeepsHistory(g: GraphValue, ms: seq<Migration>)
    requires Fits(g) && HistoryCoherent(g) && CanExpandAll(g, ms)
    ensures var g' := ExpandAll(g, ms);
            && HistoryCoherent(g') && g'.history == g.history + ms && g'.rngState == g.rngState
            && g'.architecture == if ms == [] then g.architecture else ms[|ms| - 1].target
    decreases |ms|
  {
    hide Fits, ValidMigration, ExpandParams, ExpandVectors, HistoryCoherent;
    if ms != [] {
      ExpandKeepsHistory(g, ms[0]);
      ChainKeepsHistory(Expand(g, ms[0]), ms[1..]);
      assert g.history + ms == (g.history + [ms[0]]) + ms[1..];
    } else {
      assert g.history + ms == g.history;
    }
  }

  lemma ChainSplits(ms: seq<Migration>)
    requires ms != []
    ensures Chain(ms) <==>
              && ValidMigration(ms[0]) && Chain(ms[1..])
              && (|ms| > 1 ==> ms[0].target == ms[1].source && ms[0].boundary <= ms[1].boundary)
  {
    hide ValidMigration;
    var rest := ms[1..];
    assert forall i :: 0 < i < |ms| ==> ms[i] == rest[i - 1];
    if ValidMigration(ms[0]) && Chain(rest) && (|ms| > 1 ==> ms[0].target == ms[1].source && ms[0].boundary <= ms[1].boundary) {
      forall i | 0 < i < |ms|
        ensures ms[i - 1].target == ms[i].source && ms[i - 1].boundary <= ms[i].boundary
      {
        if i > 1 {
          assert ms[i - 1] == rest[i - 2];
        }
      }
    }
    if Chain(ms) {
      forall i | 0 < i < |rest|
        ensures rest[i - 1].target == rest[i].source && rest[i - 1].boundary <= rest[i].boundary
      {
        assert rest[i - 1] == ms[i] && rest[i] == ms[i + 1];
      }
    }
  }

  /** A graph accepts a chain exactly when the chain is coherent in itself and continues the graph's own. */
  lemma {:induction false} CanExpandAllIff(g: GraphValue, ms: seq<Migration>)
    requires Fits(g)
    ensures CanExpandAll(g, ms) <==> ms == [] || (CanExpand(g, ms[0]) && Chain(ms))
    decreases |ms|
  {
    hide Fits, ValidMigration, ExpandParams, ExpandVectors, Chain;
    if ms != [] {
      ChainSplits(ms);
      if CanExpand(g, ms[0]) {
        CanExpandAllIff(Expand(g, ms[0]), ms[1..]);
        if |ms| == 1 {
          EmptyChain(ms[1..]);
        } else {
          ChainSplits(ms[1..]);
        }
      }
    }
  }

  lemma EmptyChain(ms: seq<Migration>)
    requires ms == []
    ensures Chain(ms)
  {
  }
}
