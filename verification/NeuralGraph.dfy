/** The learned graph's neural state as mutable objects over flat arrays. */
module NeuralGraph {
  import opened NeuralLayout
  import opened NeuralRoles
  import opened NeuralExpansion
  import opened TrainingSpec

  class Network {
    const weights: array<real>
    const biases: array<real>
    const weightImportance: array<real>
    const biasImportance: array<real>
    /** Scratch owned by training. */
    const activations: array<real>
    const deltas: array<real>

    /** Storage of the shape the layout asks for, with arbitrary contents. */
    constructor (w: seq<nat>)
      requires Widths(w)
      ensures fresh(Arrays())
      ensures Shaped(w)
    {
      weights, weightImportance := new real[WeightCount(w)], new real[WeightCount(w)];
      biases, biasImportance := new real[BiasCount(w)], new real[BiasCount(w)];
      activations, deltas := new real[ActivationCount(w)], new real[ActivationCount(w)];
    }

    ghost predicate Shaped(w: seq<nat>)
      requires Widths(w)
    {
      && weights.Length == weightImportance.Length == WeightCount(w)
      && biases.Length == biasImportance.Length == BiasCount(w)
      && activations.Length == deltas.Length == ActivationCount(w)
      && {weights} !! {biases} !! {weightImportance} !! {biasImportance} !! {activations} !! {deltas}
    }

    ghost function Arrays(): set<array<real>> {
      {weights, biases, weightImportance, biasImportance, activations, deltas}
    }

    ghost function Value(): Params
      reads weights, biases, weightImportance, biasImportance
    {
      Params(weights[..], biases[..], weightImportance[..], biasImportance[..])
    }
  }

  class Node {
    var embedding: seq<real>
    var importance: seq<real>

    constructor (embedding: seq<real>, importance: seq<real>)
      ensures this.embedding == embedding && this.importance == importance
    {
      this.embedding, this.importance := embedding, importance;
    }
  }

  function NodeValue(n: Node): Vectors
    reads n
  {
    Vectors(n.embedding, n.importance)
  }

  class Graph {
    var architecture: Architecture
    var network: Network
    var nodes: seq<Node>
    var history: seq<Migration>
    var rngState: Rng
    var config: Config
    /** Plasticity statistics. */
    var stepsTotal: nat
    var stepsProtected: nat
    var parametersProtected: nat

    /** A graph with no nodes and no expansion history. */
    constructor (architecture: Architecture, rngState: Rng, config: Config)
      requires Accepts(architecture)
      ensures Valid() && fresh(network) && fresh(network.Arrays())
      ensures this.architecture == architecture && this.rngState == rngState && nodes == [] && history == []
    {
      WellShapedWidths(architecture);
      this.architecture, this.rngState, nodes, history := architecture, rngState, [], [];
      this.config, stepsTotal, stepsProtected, parametersProtected := config, 0, 0, 0;
      network := new Network(WidthsOf(architecture));
    }

    ghost function State(): GraphValue
      reads this, nodes, network.Arrays()
    {
      GraphValue(architecture, network.Value(),
                 seq(|nodes|, i requires 0 <= i < |nodes| reads this, nodes => NodeValue(nodes[i])),
                 history, rngState)
    }

    ghost predicate Valid()
      reads this, nodes
    {
      && Accepts(architecture)
      && (WellShapedWidths(architecture); network.Shaped(WidthsOf(architecture)))
      && (forall i, j :: 0 <= i < j < |nodes| ==> nodes[i] != nodes[j])
      && forall i :: 0 <= i < |nodes| ==> VectorsFit(architecture.embeddingDim, NodeValue(nodes[i]))
    }

    lemma ValidFits()
      requires Valid()
      ensures Fits(State())
    {
    }
  
    lemma ValidShaped()
      requires Valid()
      ensures WellShaped(architecture) && Widths(WidthsOf(architecture)) && network.Shaped(WidthsOf(architecture))
    {
      WellShapedWidths(architecture);
    }

    lemma ValidParams()
      requires Valid()
      ensures ParamsFit(architecture, network.Value())
    {
    }
  }
}
