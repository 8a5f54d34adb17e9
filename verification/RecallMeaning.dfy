/** What the parts of a recall's evidence mean, each by an equation of its own. */
module RecallMeaning {
  import opened Bytes
  import opened Ranking
  import opened Recall

  /** Exposure f / (f + 1) of a positive familiarity, and none of any other. */
  lemma ExposureIs(familiarity: real)
    ensures familiarity > 0.0 ==> BoundedExposure(familiarity) * (familiarity + 1.0) == familiarity
    ensures familiarity <= 0.0 ==> BoundedExposure(familiarity) == 0.0
  {
  }

  /** Recency halves after one day, counts an observation from the future as new, and needs both times. */
  lemma RecencyIs(observedAt: u64, atEpoch: u64)
    ensures observedAt == 0 || atEpoch == 0 ==> Recency(observedAt, atEpoch) == 0.0
    ensures 0 < atEpoch <= observedAt ==> Recency(observedAt, atEpoch) == 1.0
    ensures 0 < observedAt <= atEpoch ==>
              Recency(observedAt, atEpoch) * (86400.0 + (atEpoch - observedAt) as real) == 86400.0
  {
    if 0 < observedAt <= atEpoch {
      var age := (atEpoch - observedAt) as real;
      assert 1.0 + age / 86400.0 == (86400.0 + age) / 86400.0;
    }
  }

  /** Use n / (n + 1) of n recalls, and one when the count is saturated. */
  lemma UseIs(recallCount: u64)
    ensures recallCount < U64_MAX ==> UseScore(recallCount) * (recallCount as real + 1.0) == recallCount as real
    ensures recallCount == U64_MAX ==> UseScore(recallCount) == 1.0
  {
  }

  /** The fields of the sums that one token leaves as they are. */
  predicate SameExact(a: Gathered, b: Gathered) {
    a.exact == b.exact && a.exactMatches == b.exactMatches
  }

  predicate SameAssociation(a: Gathered, b: Gathered) {
    a.association == b.association && a.associationMatches == b.associationMatches
  }

  /**
   Each further token adds its weight to the exact sum if it is in the query, or else its weight by
   the support it has; if either, it also counts towards the mean exposure. A token the graph does
   not know, or without support, adds nothing.
   */
  lemma TokenAdds(g: Associations, query: seq<nat>, summary: seq<Token>, t: Token)
    ensures Gather(g, query, []) == Gathered(0.0, 0.0, 0.0, 0.0, 0, 0)
    ensures var a, b := Gather(g, query, summary), Gather(g, query, summary + [t]);
      var known, support := t.node < |g.familiarity|, Support(g, query, t.node);
      && (known && t.node in query ==>
           b.exact == a.exact + t.weight && b.exactMatches == a.exactMatches + 1 && SameAssociation(a, b))
      && (known && t.node !in query && support > 0.0 ==>
           && b.association == a.association + t.weight * support
           && b.associationMatches == a.associationMatches + 1 && SameExact(a, b))
      && (known && (t.node in query || support > 0.0) ==>
           && b.exposure == a.exposure + t.weight * BoundedExposure(g.familiarity[t.node])
           && b.weight == a.weight + t.weight)
      && (!known || (t.node !in query && !(support > 0.0)) ==> b == a)
  {
    hide Support, BoundedExposure, Share;
    assert (summary + [t])[..|summary|] == summary;
    ShareIs(g, query, t);
  }

  lemma ShareIs(g: Associations, query: seq<nat>, t: Token)
    ensures var known, share, support := t.node < |g.familiarity|, Share(g, query, t), Support(g, query, t.node);
      && (known && t.node in query ==>
           share == Gathered(t.weight, 0.0, t.weight * BoundedExposure(g.familiarity[t.node]), t.weight, 1, 0))
      && (known && t.node !in query && support > 0.0 ==>
           share == Gathered(0.0, t.weight * support, t.weight * BoundedExposure(g.familiarity[t.node]), t.weight, 0, 1))
      && (!known || (t.node !in query && !(support > 0.0)) ==> share == NOTHING)
  {
    hide Support, BoundedExposure;
  }

  /** The documented score: a weighted sum of the two direct and the three secondary signals. */
  lemma ScoreIs(g: Associations, query: seq<nat>, episode: Episode, atEpoch: u64)
    ensures var e, a := EvidenceOf(g, query, episode, atEpoch), Gather(g, query, episode.summary);
      && e.score == e.exact + 0.5 * e.association + 0.1 * e.familiarity + 0.1 * e.recency + 0.05 * e.use
      && e.exact == a.exact && e.association == a.association
      && e.exactMatches == a.exactMatches && e.associationMatches == a.associationMatches
      && (a.weight > 0.0 ==> e.familiarity * a.weight == a.exposure)
      && (a.weight <= 0.0 ==> e.familiarity == 0.0)
      && e.recency == Recency(episode.observedAt, atEpoch) && e.use == UseScore(episode.recallCount)
  {
    hide Gather, Recency, UseScore;
  }

  /**
   The order of the results: by score, then exact support, then association, then the later
   observation, then the larger ledger id.
   */
  lemma OrderIs(a: Match, b: Match)
    ensures Ahead(a, b) <==>
            var (x, y) := (a.evidence, b.evidence);
            x.score > y.score || (x.score == y.score &&
              (x.exact > y.exact || (x.exact == y.exact &&
                (x.association > y.association || (x.association == y.association &&
                  (a.observedAt > b.observedAt || (a.observedAt == b.observedAt &&
                    a.ledgerId > b.ledgerId)))))))
  {
  }

  /** A recall of nothing, into nothing or over nothing returns nothing. */
  lemma NothingRecalled(g: Associations, query: seq<nat>, episodes: seq<Episode>, limit: nat, capacity: nat, atEpoch: u64)
    requires query == [] || episodes == [] || limit == 0 || capacity == 0
    ensures Ranked(g, query, episodes, limit, capacity, atEpoch) == []
  {
  }
}
