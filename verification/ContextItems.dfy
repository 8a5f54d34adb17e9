/** The candidates for a planning context and the order in which they compete. */
module ContextItems {
  import opened Bytes
  import opened Ranking

  datatype Kind = Immediate | Memory | Recent | AuthorState | SourceState

  datatype Item = Item(
    kind: Kind, score: real, selected: nat, available: nat, truncated: bool, inputIndex: nat,
    observedAt: u64, ledgerId: u64, sourceId: seq<byte>, author: seq<byte>)

  function Priority(kind: Kind): nat {
    match kind
    case Immediate => 0
    case Memory => 1
    case Recent => 2
    case AuthorState => 3
    case SourceState => 4
  }

  /** The order of C strings without their terminator: bytewise, a prefix first. */
  function StringCompare(a: seq<byte>, b: seq<byte>): int {
    if a == [] && b == [] then 0
    else if a == [] then -1
    else if b == [] then 1
    else if a[0] != b[0] then a[0] - b[0]
    else StringCompare(a[1..], b[1..])
  }

  /** The comparator: positive when `a` sorts after `b`. */
  function Compare(a: Item, b: Item): int {
    if a.score < b.score then 1
    else if a.score > b.score then -1
    else if Priority(a.kind) < Priority(b.kind) then -1
    else if Priority(a.kind) > Priority(b.kind) then 1
    else if a.observedAt < b.observedAt then 1
    else if a.observedAt > b.observedAt then -1
    else if a.ledgerId < b.ledgerId then 1
    else if a.ledgerId > b.ledgerId then -1
    else CompareProvenance(a, b)
  }

  function CompareProvenance(a: Item, b: Item): int {
    var source, author := StringCompare(a.sourceId, b.sourceId), StringCompare(a.author, b.author);
    if source != 0 then source
    else if author != 0 then author
    else if a.inputIndex < b.inputIndex then -1
    else if a.inputIndex > b.inputIndex then 1
    else 0
  }

  predicate Ahead(a: Item, b: Item) {
    Compare(a, b) < 0
  }

  // ---------------------------------------------------------------- the comparator is an order

  lemma {:induction false} StringCompareFlips(a: seq<byte>, b: seq<byte>)
    ensures StringCompare(a, b) == -StringCompare(b, a)
    ensures StringCompare(a, b) == 0 <==> a == b
  {
    if a != [] && b != [] && a[0] == b[0] {
      StringCompareFlips(a[1..], b[1..]);
      assert a == [a[0]] + a[1..] && b == [b[0]] + b[1..];
    }
  }

  lemma {:induction false} StringCompareChains(a: seq<byte>, b: seq<byte>, c: seq<byte>)
    requires StringCompare(a, b) <= 0 && StringCompare(b, c) <= 0
    ensures StringCompare(a, c) <= 0
  {
    if a != [] && b != [] && c != [] && a[0] == b[0] == c[0] {
      StringCompareChains(a[1..], b[1..], c[1..]);
    }
  }

  lemma CompareProvenanceFlips(a: Item, b: Item)
    ensures CompareProvenance(a, b) == -CompareProvenance(b, a)
    ensures CompareProvenance(a, b) == 0 <==> a.sourceId == b.sourceId && a.author == b.author && a.inputIndex == b.inputIndex
  {
    StringCompareFlips(a.sourceId, b.sourceId);
    StringCompareFlips(a.author, b.author);
  }

  lemma CompareProvenanceChains(a: Item, b: Item, c: Item)
    requires CompareProvenance(a, b) <= 0 && CompareProvenance(b, c) <= 0
    ensures CompareProvenance(a, c) <= 0
  {
    StringCompareFlips(a.sourceId, b.sourceId);
    StringCompareFlips(b.sourceId, c.sourceId);
    StringCompareFlips(a.sourceId, c.sourceId);
    StringCompareFlips(a.author, b.author);
    StringCompareFlips(b.author, c.author);
    StringCompareFlips(a.author, c.author);
    if StringCompare(a.sourceId, b.sourceId) <= 0 && StringCompare(b.sourceId, c.sourceId) <= 0 {
      StringCompareChains(a.sourceId, b.sourceId, c.sourceId);
    }
    if StringCompare(a.author, b.author) <= 0 && StringCompare(b.author, c.author) <= 0 {
      StringCompareChains(a.author, b.author, c.author);
    }
  }

  lemma CompareFlips(a: Item, b: Item)
    ensures Compare(a, b) == -Compare(b, a)
    ensures Compare(a, b) == 0 ==> a.kind == b.kind && a.ledgerId == b.ledgerId && a.inputIndex == b.inputIndex
  {
    hide CompareProvenance;
    CompareProvenanceFlips(a, b);
  }

  lemma CompareChains(a: Item, b: Item, c: Item)
    requires Compare(a, b) <= 0 && Compare(b, c) <= 0
    ensures Compare(a, c) <= 0
  {
    hide CompareProvenance;
    if CompareProvenance(a, b) <= 0 && CompareProvenance(b, c) <= 0 {
      CompareProvenanceChains(a, b, c);
    }
  }

  /** The comparator never contradicts itself, and it ties only items of one kind, ledger id and input index. */
  lemma AheadIsStrictWeak()
    ensures StrictWeak(Ahead)
  {
    hide Compare;
    forall a, b | Ahead(a, b)
      ensures !Ahead(b, a)
    {
      CompareFlips(a, b);
    }
    forall a, b, c | !Ahead(a, b) && !Ahead(b, c)
      ensures !Ahead(a, c)
    {
      CompareFlips(a, b);
      CompareFlips(b, c);
      CompareFlips(a, c);
      CompareChains(c, b, a);
    }
  }

  /** An immediate item of full score goes before every other kind of item. */
  lemma ImmediateLeads(immediate: Item, other: Item)
    requires immediate.kind == Immediate && immediate.score == 1.0
    requires other.kind != Immediate && other.score <= 1.0
    ensures Ahead(immediate, other)
  {
  }
}
