/**
 Ranked episodic recall: every remembered episode in the scanned tail is scored against the query,
 the eligible ones are ranked, and the best few are returned. Only the mutable form counts a
 returned episode as recalled.
 */
module Recall {
  import opened Bytes
  import opened Options
  import opened Ranking

  const U64_MAX: nat := 0xFFFF_FFFF_FFFF_FFFF

  datatype Token = Token(node: nat, weight: real)

  datatype Episode = Episode(
    ledgerId: u64, observedAt: u64, recallCount: u64, lastRecallAt: u64,
    summary: seq<Token>, sourceId: seq<byte>, author: seq<byte>)

  /** What recall reads of the graph: node familiarity, edge strength, and the network's score, if it has one. */
  datatype Associations = Associations(
    familiarity: seq<real>, strength: map<(nat, nat), real>, neural: (nat, nat) -> Option<real>)

  // ---------------------------------------------------------------- scoring helpers

  function Clamp01(value: real): real {
    if value <= 0.0 then 0.0 else if value >= 1.0 then 1.0 else value
  }

  function EdgeScore(g: Associations, source: nat, target: nat): real {
    if (source, target) !in g.strength then 0.0
    else
      var neural := match g.neural(source, target) case Some(score) => score case None => 0.0;
      Clamp01(g.strength[(source, target)] * 0.7 + neural * 0.3)
  }

  function Association(g: Associations, left: nat, right: nat): (score: real)
    ensures 0.0 <= score <= 1.0
  {
    if left == right then 0.0
    else
      var forward, reverse := EdgeScore(g, left, right), EdgeScore(g, right, left);
      if forward > reverse then forward else reverse
  }

  /** The learned strength and the network's score of an edge, before clamping; no score counts as zero. */
  function Blend(g: Associations, source: nat, target: nat): (blend: real)
    requires (source, target) in g.strength
    ensures g.neural(source, target) == None ==> blend == 0.7 * g.strength[(source, target)]
    ensures forall score :: g.neural(source, target) == Some(score) ==>
              blend == 0.7 * g.strength[(source, target)] + 0.3 * score
  {
    match g.neural(source, target)
    case Some(score) => 0.7 * g.strength[(source, target)] + 0.3 * score
    case None => 0.7 * g.strength[(source, target)]
  }

  /** An edge scores its blend, held between zero and one; a missing edge scores zero. */
  lemma EdgeScoreIs(g: Associations, source: nat, target: nat)
    ensures (source, target) !in g.strength ==> EdgeScore(g, source, target) == 0.0
    ensures (source, target) in g.strength ==>
              var blend, score := Blend(g, source, target), EdgeScore(g, source, target);
              && (0.0 <= blend <= 1.0 ==> score == blend)
              && (blend < 0.0 ==> score == 0.0)
              && (blend > 1.0 ==> score == 1.0)
  {
  }

  /** Different nodes are associated as strongly as the stronger of the two directed edges, either way round. */
  lemma AssociationIsStrongest(g: Associations, left: nat, right: nat)
    ensures Association(g, left, left) == 0.0
    ensures Association(g, left, right) == Association(g, right, left)
    ensures left != right ==>
              var score, there, back := Association(g, left, right), EdgeScore(g, left, right), EdgeScore(g, right, left);
              score >= there && score >= back && (score == there || score == back)
  {
    hide EdgeScore;
  }

  /** There is an edge whose blend is positive. */
  predicate Positive(g: Associations, source: nat, target: nat) {
    (source, target) in g.strength && Blend(g, source, target) > 0.0
  }

  lemma AssociatedIff(g: Associations, left: nat, right: nat)
    ensures Association(g, left, right) > 0.0 <==>
            left != right && (Positive(g, left, right) || Positive(g, right, left))
  {
    EdgeScoreIs(g, left, right);
    EdgeScoreIs(g, right, left);
    AssociationIsStrongest(g, left, right);
  }

  lemma Fraction(x: real)
    requires x >= 0.0
    ensures 0.0 <= x / (x + 1.0) < 1.0
  {
  }

  function BoundedExposure(familiarity: real): (exposure: real)
    ensures 0.0 <= exposure < 1.0
  {
    if familiarity <= 0.0 then 0.0 else familiarity / (familiarity + 1.0)
  }

  function Recency(observedAt: u64, atEpoch: u64): (recency: real)
    ensures 0.0 <= recency <= 1.0
    ensures recency == 1.0 <==> 0 < atEpoch <= observedAt
  {
    if observedAt == 0 || atEpoch == 0 then 0.0
    else
      var age: nat := if atEpoch > observedAt then atEpoch - observedAt else 0;
      1.0 / (1.0 + age as real / 86400.0)
  }

  function UseScore(recallCount: u64): (use: real)
    ensures 0.0 <= use <= 1.0
  {
    Fraction(recallCount as real);
    if recallCount == 0 then 0.0
    else if recallCount == U64_MAX then 1.0
    else recallCount as real / (recallCount as real + 1.0)
  }

  /** Being recalled once more strictly raises the use score, below saturation. */
  lemma UseScoreGrows(recallCount: u64)
    requires recallCount < U64_MAX
    ensures UseScore(recallCount) < UseScore(recallCount + 1)
  {
    var x := recallCount as real;
    if 0 < recallCount && recallCount + 1 < U64_MAX {
      assert x / (x + 1.0) == 1.0 - 1.0 / (x + 1.0);
      assert (x + 1.0) / (x + 2.0) == 1.0 - 1.0 / (x + 2.0);
      Reciprocals(x + 1.0, x + 2.0);
    }
  }

  lemma Reciprocals(x: real, y: real)
    requires 0.0 < x < y
    ensures 1.0 / y < 1.0 / x
  {
    assert 1.0 / x - 1.0 / y == (y - x) / (x * y);
    assert x * y > 0.0;
    Quotient(y - x, x * y);
  }

  lemma Quotient(x: real, y: real)
    requires x > 0.0 && y > 0.0
    ensures x / y > 0.0
  {
  }

  // ---------------------------------------------------------------- the evidence of one episode

  /** The strongest association of a node with any query node. */
  function Support(g: Associations, query: seq<nat>, node: nat): (support: real)
    ensures 0.0 <= support <= 1.0
    ensures forall q :: q in query ==> Association(g, q, node) <= support
    ensures support == 0.0 || exists q :: q in query && Association(g, q, node) == support
  {
    if query == [] then 0.0
    else
      var rest := Support(g, query[..|query| - 1], node);
      var candidate := Association(g, query[|query| - 1], node);
      if candidate > rest then candidate else rest
  }

  function Part(weight: real, fraction: real): real {
    weight * fraction
  }

  lemma PartBounds(weight: real, fraction: real)
    requires weight >= 0.0 && 0.0 <= fraction <= 1.0
    ensures 0.0 <= Part(weight, fraction) <= weight
    ensures weight > 0.0 && fraction > 0.0 ==> Part(weight, fraction) > 0.0
  {
    assert weight * fraction >= 0.0;
    assert weight * (1.0 - fraction) >= 0.0;
  }

  datatype Gathered = Gathered(
    exact: real, association: real, exposure: real, weight: real, exactMatches: nat, associationMatches: nat)

  const NOTHING := Gathered(0.0, 0.0, 0.0, 0.0, 0, 0)

  function Add(a: Gathered, b: Gathered): Gathered {
    Gathered(a.exact + b.exact, a.association + b.association, a.exposure + b.exposure, a.weight + b.weight,
             a.exactMatches + b.exactMatches, a.associationMatches + b.associationMatches)
  }

  /** What one summary token adds: a literal match, else an association, else nothing. */
  function Share(g: Associations, query: seq<nat>, token: Token): Gathered {
    if token.node >= |g.familiarity| then NOTHING
    else
      var exposure := Part(token.weight, BoundedExposure(g.familiarity[token.node]));
      var support := Support(g, query, token.node);
      if token.node in query then Gathered(token.weight, 0.0, exposure, token.weight, 1, 0)
      else if support > 0.0 then Gathered(0.0, Part(token.weight, support), exposure, token.weight, 0, 1)
      else NOTHING
  }

  function Gather(g: Associations, query: seq<nat>, summary: seq<Token>): Gathered {
    if summary == [] then NOTHING
    else Add(Gather(g, query, summary[..|summary| - 1]), Share(g, query, summary[|summary| - 1]))
  }

  datatype Evidence = Evidence(
    score: real, exact: real, association: real, familiarity: real, recency: real, use: real,
    exactMatches: nat, associationMatches: nat)

  function Weigh(a: Gathered, episode: Episode, atEpoch: u64): Evidence {
    var familiarity := if a.weight > 0.0 then a.exposure / a.weight else 0.0;
    var recency, use := Recency(episode.observedAt, atEpoch), UseScore(episode.recallCount);
    Evidence(a.exact * 1.0 + a.association * 0.5 + familiarity * 0.1 + recency * 0.1 + use * 0.05,
             a.exact, a.association, familiarity, recency, use, a.exactMatches, a.associationMatches)
  }

  function EvidenceOf(g: Associations, query: seq<nat>, episode: Episode, atEpoch: u64): Evidence {
    Weigh(Gather(g, query, episode.summary), episode, atEpoch)
  }

  predicate Eligible(e: Evidence) {
    e.exact > 0.0 || e.association > 0.0
  }

  predicate NonNegative(summary: seq<Token>) {
    forall i :: 0 <= i < |summary| ==> summary[i].weight >= 0.0
  }

  /**
   The token is known to the graph, weighs something, and is in the query or on an edge of positive
   blend to or from some query node.
   */
  predicate Speaks(g: Associations, query: seq<nat>, token: Token) {
    token.weight > 0.0 && token.node < |g.familiarity|
    && (token.node in query || exists q :: q in query && (Positive(g, q, token.node) || Positive(g, token.node, q)))
  }

  lemma SupportedIff(g: Associations, query: seq<nat>, node: nat)
    requires node !in query
    ensures Support(g, query, node) > 0.0 <==>
            exists q :: q in query && (Positive(g, q, node) || Positive(g, node, q))
  {
    hide Association, Positive;
    forall q | q in query
      ensures Association(g, q, node) > 0.0 <==> Positive(g, q, node) || Positive(g, node, q)
    {
      AssociatedIff(g, q, node);
    }
  }

  lemma ShareBounds(g: Associations, query: seq<nat>, token: Token)
    requires token.weight >= 0.0
    ensures var a := Share(g, query, token);
      && 0.0 <= a.exposure <= a.weight && a.exact >= 0.0 && a.association >= 0.0
      && (a.exact + a.association > 0.0 <==> Speaks(g, query, token))
      && a.exact + a.association <= token.weight
  {
    hide Part, Support, BoundedExposure, Association, Positive;
    if token.node !in query {
      SupportedIff(g, query, token.node);
    }
    if token.node < |g.familiarity| {
      PartBounds(token.weight, BoundedExposure(g.familiarity[token.node]));
      PartBounds(token.weight, Support(g, query, token.node));
    }
  }

  /** The gathered sums are non-negative, exposure is at most weight, and evidence needs a token that speaks. */
  lemma {:induction false} GatherBounds(g: Associations, query: seq<nat>, summary: seq<Token>)
    requires NonNegative(summary)
    ensures var a := Gather(g, query, summary);
      && 0.0 <= a.exposure <= a.weight && a.exact >= 0.0 && a.association >= 0.0
      && (a.exact > 0.0 || a.association > 0.0 <==> exists i :: 0 <= i < |summary| && Speaks(g, query, summary[i]))
  {
    hide Share, Speaks;
    if summary != [] {
      var last := |summary| - 1;
      GatherBounds(g, query, summary[..last]);
      ShareBounds(g, query, summary[last]);
      var before, share := Gather(g, query, summary[..last]), Share(g, query, summary[last]);
      if i :| 0 <= i < last && Speaks(g, query, summary[..last][i]) {
        assert Speaks(g, query, summary[i]);
      }
      if i :| 0 <= i < |summary| && Speaks(g, query, summary[i]) {
        assert i < last ==> Speaks(g, query, summary[..last][i]);
      }
    }
  }

  /**
   An episode is eligible exactly when one of its summary tokens is in the query or on a positive edge
   to or from it: familiarity, recency and use alone never recall it.
   */
  lemma EligibleIff(g: Associations, query: seq<nat>, episode: Episode, atEpoch: u64)
    requires NonNegative(episode.summary)
    ensures Eligible(EvidenceOf(g, query, episode, atEpoch)) <==>
            exists i :: 0 <= i < |episode.summary| && Speaks(g, query, episode.summary[i])
  {
    GatherBounds(g, query, episode.summary);
  }

  /** The secondary signals together move the score by at most a quarter. */
  lemma ScoreBand(g: Associations, query: seq<nat>, episode: Episode, atEpoch: u64)
    requires NonNegative(episode.summary)
    ensures var e := EvidenceOf(g, query, episode, atEpoch);
      0.0 <= e.score - e.exact - 0.5 * e.association <= 0.25
  {
    hide Gather, Recency, UseScore;
    GatherBounds(g, query, episode.summary);
    var a := Gather(g, query, episode.summary);
    if a.weight > 0.0 {
      var mean := a.exposure / a.weight;
      assert mean * a.weight == a.exposure;
      if mean > 1.0 {
        assert mean * a.weight > a.weight;
      }
      if mean < 0.0 {
        assert mean * a.weight < 0.0;
      }
    }
  }

  /** Score one episode: a pass over its summary with two passes over the query inside. */
  method ScoreEpisode(g: Associations, query: seq<nat>, episode: Episode, atEpoch: u64) returns (e: Evidence)
    ensures e == EvidenceOf(g, query, episode, atEpoch)
  {
    hide Share, Add, Weigh;
    var a := NOTHING;
    for s := 0 to |episode.summary|
      invariant a == Gather(g, query, episode.summary[..s])
    {
      assert episode.summary[..s + 1][..s] == episode.summary[..s];
      a := ScoreToken(g, query, episode.summary[s], a);
    }
    assert episode.summary[..|episode.summary|] == episode.summary;
    e := Weigh(a, episode, atEpoch);
  }

  method ScoreToken(g: Associations, query: seq<nat>, token: Token, before: Gathered) returns (a: Gathered)
    ensures a == Add(before, Share(g, query, token))
  {
    hide Part, Support, BoundedExposure;
    a := before;
    if token.node >= |g.familiarity| {
      return;
    }
    var exactMatch := Queried(query, token.node);
    var support := 0.0;
    if exactMatch {
      a := a.(exact := a.exact + token.weight, exactMatches := a.exactMatches + 1);
    } else {
      support := StrongestSupport(g, query, token.node);
      if support > 0.0 {
        a := a.(association := a.association + Part(token.weight, support),
                associationMatches := a.associationMatches + 1);
      }
    }
    if exactMatch || support > 0.0 {
      a := a.(exposure := a.exposure + Part(token.weight, BoundedExposure(g.familiarity[token.node])),
              weight := a.weight + token.weight);
    }
  }

  method Queried(query: seq<nat>, node: nat) returns (found: bool)
    ensures found <==> node in query
  {
    found := false;
    for q := 0 to |query|
      invariant !found && node !in query[..q]
    {
      if query[q] == node {
        return true;
      }
    }
  }

  method StrongestSupport(g: Associations, query: seq<nat>, node: nat) returns (support: real)
    ensures support == Support(g, query, node)
  {
    support := 0.0;
    for q := 0 to |query|
      invariant support == Support(g, query[..q], node)
    {
      assert query[..q + 1][..q] == query[..q];
      var candidate := Association(g, query[q], node);
      if candidate > support {
        support := candidate;
      }
    }
    assert query[..|query|] == query;
  }

  // ---------------------------------------------------------------- the order of matches

  datatype Match = Match(index: nat, evidence: Evidence, observedAt: u64, ledgerId: u64)

  /** The comparator: positive when `a` sorts after `b`. */
  function Compare(a: Match, b: Match): int {
    if a.evidence.score < b.evidence.score then 1
    else if a.evidence.score > b.evidence.score then -1
    else if a.evidence.exact < b.evidence.exact then 1
    else if a.evidence.exact > b.evidence.exact then -1
    else if a.evidence.association < b.evidence.association then 1
    else if a.evidence.association > b.evidence.association then -1
    else if a.observedAt < b.observedAt then 1
    else if a.observedAt > b.observedAt then -1
    else if a.ledgerId < b.ledgerId then 1
    else if a.ledgerId > b.ledgerId then -1
    else 0
  }

  predicate Ahead(a: Match, b: Match) {
    Compare(a, b) < 0
  }

  /** The comparator is consistent in both directions, ties are transitive, and only equal ledger ids tie. */
  lemma AheadIsStrictWeak()
    ensures StrictWeak(Ahead)
    ensures forall a, b :: Compare(a, b) == -Compare(b, a)
    ensures forall a, b :: !Ahead(a, b) && !Ahead(b, a) ==> a.ledgerId == b.ledgerId
  {
  }

  /** Enough direct evidence outranks any secondary signal. */
  lemma EvidenceOutranks(g: Associations, query: seq<nat>, x: Episode, y: Episode, i: nat, j: nat, atEpoch: u64)
    requires NonNegative(x.summary) && NonNegative(y.summary)
    requires var (e, f) := (EvidenceOf(g, query, x, atEpoch), EvidenceOf(g, query, y, atEpoch));
      e.exact + 0.5 * e.association > f.exact + 0.5 * f.association + 0.25
    ensures Ahead(MatchOf(g, query, x, i, atEpoch), MatchOf(g, query, y, j, atEpoch))
  {
    hide EvidenceOf;
    ScoreBand(g, query, x, atEpoch);
    ScoreBand(g, query, y, atEpoch);
  }

  function MatchOf(g: Associations, query: seq<nat>, episode: Episode, index: nat, atEpoch: u64): Match {
    Match(index, EvidenceOf(g, query, episode, atEpoch), episode.observedAt, episode.ledgerId)
  }

  // ---------------------------------------------------------------- what a recall returns

  /** The eligible episodes from an index on, in storage order. */
  function Matches(g: Associations, query: seq<nat>, episodes: seq<Episode>, from: nat, atEpoch: u64): seq<Match>
    requires from <= |episodes|
    decreases |episodes| - from
  {
    if from == |episodes| then []
    else
      var m := MatchOf(g, query, episodes[from], from, atEpoch);
      (if Eligible(m.evidence) then [m] else []) + Matches(g, query, episodes, from + 1, atEpoch)
  }

  function ScanStart(count: nat, limit: nat): (start: nat)
    ensures start <= count && count - start <= limit
    ensures start == 0 || count - start == limit
  {
    count - if count < limit then count else limit
  }

  function Top(matches: seq<Match>, capacity: nat): (r: seq<Match>)
    ensures |r| <= capacity && |r| <= |matches|
  {
    var ranked := Sort(matches, Ahead);
    SortKeepsLength(matches);
    if |matches| < capacity then ranked else ranked[..capacity]
  }

  lemma SortKeepsLength(matches: seq<Match>)
    ensures |Sort(matches, Ahead)| == |matches|
  {
    AheadIsStrictWeak();
    SortSorts(matches, Ahead);
  }

  function Ranked(g: Associations, query: seq<nat>, episodes: seq<Episode>, limit: nat, capacity: nat, atEpoch: u64): seq<Match> {
    if capacity == 0 || limit == 0 || |episodes| == 0 || |query| == 0 then []
    else Top(Matches(g, query, episodes, ScanStart(|episodes|, limit), atEpoch), capacity)
  }

  /** Recalled once more: the count stops at its largest value. */
  function Touch(e: Episode, atEpoch: u64): Episode {
    e.(recallCount := if e.recallCount != U64_MAX then e.recallCount + 1 else e.recallCount, lastRecallAt := atEpoch)
  }

  datatype Recalled = Recalled(episode: Episode, evidence: Evidence)

  predicate InRange(matches: seq<Match>, count: nat) {
    forall i :: 0 <= i < |matches| ==> matches[i].index < count
  }

  function Copies(episodes: seq<Episode>, matches: seq<Match>): (r: seq<Recalled>)
    requires InRange(matches, |episodes|)
  {
    seq(|matches|, i requires 0 <= i < |matches| => Recalled(episodes[matches[i].index], matches[i].evidence))
  }

  function Marked(episodes: seq<Episode>, matches: seq<Match>, atEpoch: u64): (r: seq<Episode>)
    requires InRange(matches, |episodes|)
    ensures |r| == |episodes|
  {
    if matches == [] then episodes
    else
      var last := matches[|matches| - 1].index;
      var r := Marked(episodes, matches[..|matches| - 1], atEpoch);
      r[last := Touch(r[last], atEpoch)]
  }
}
