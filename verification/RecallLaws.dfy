/**
 What a ranked recall returns, for every memory and query: the best eligible episodes, whichever
 sort is used, and the same episodes again when the recall is repeated.
 */
module RecallLaws {
  import opened Bytes
  import opened Ranking
  import opened Recall

  ghost predicate DistinctIds(episodes: seq<Episode>) {
    forall i, j :: 0 <= i < j < |episodes| ==> episodes[i].ledgerId != episodes[j].ledgerId
  }

  predicate Ascending(matches: seq<Match>) {
    forall i, j :: 0 <= i < j < |matches| ==> matches[i].index < matches[j].index
  }

  ghost predicate NoRepeats(matches: seq<Match>) {
    forall i, j :: 0 <= i < j < |matches| ==> matches[i].index != matches[j].index
  }

  // ---------------------------------------------------------------- the matches

  /** The matches are exactly the eligible episodes of the scanned tail. */
  lemma {:induction false} MatchesAreTheEligible(
    g: Associations, query: seq<nat>, episodes: seq<Episode>, from: nat, atEpoch: u64, m: Match)
    requires from <= |episodes|
    ensures m in Matches(g, query, episodes, from, atEpoch) <==>
            (&& from <= m.index < |episodes| && m == MatchOf(g, query, episodes[m.index], m.index, atEpoch)
             && Eligible(m.evidence))
    decreases |episodes| - from
  {
    hide EvidenceOf, Eligible;
    if from < |episodes| {
      MatchesAreTheEligible(g, query, episodes, from + 1, atEpoch, m);
    }
  }

  lemma {:induction false} MatchesAscend(g: Associations, query: seq<nat>, episodes: seq<Episode>, from: nat, atEpoch: u64)
    requires from <= |episodes|
    ensures Ascending(Matches(g, query, episodes, from, atEpoch))
    ensures |Matches(g, query, episodes, from, atEpoch)| <= |episodes| - from
    decreases |episodes| - from
  {
    hide EvidenceOf, Eligible;
    if from < |episodes| {
      MatchesAscend(g, query, episodes, from + 1, atEpoch);
      var rest := Matches(g, query, episodes, from + 1, atEpoch);
      forall i | 0 <= i < |rest|
        ensures from < rest[i].index
      {
        MatchesAreTheEligible(g, query, episodes, from + 1, atEpoch, rest[i]);
      }
    }
  }

  /** Episodes with different ledger ids are never tied, so the order of the matches is total. */
  lemma MatchesNeverTie(g: Associations, query: seq<nat>, episodes: seq<Episode>, from: nat, atEpoch: u64)
    requires from <= |episodes| && DistinctIds(episodes)
    ensures NoTies(Matches(g, query, episodes, from, atEpoch), Ahead)
  {
    hide EvidenceOf, Eligible, Matches, Ahead;
    var ms := Matches(g, query, episodes, from, atEpoch);
    forall i, j | 0 <= i < |ms| && 0 <= j < |ms| && ms[i] != ms[j]
      ensures Ahead(ms[i], ms[j]) || Ahead(ms[j], ms[i])
    {
      MatchesAreTheEligible(g, query, episodes, from, atEpoch, ms[i]);
      MatchesAreTheEligible(g, query, episodes, from, atEpoch, ms[j]);
      assert ms[i].index != ms[j].index;
      AheadIsStrictWeak();
    }
  }

  // ---------------------------------------------------------------- the ranked prefix

  lemma TopFacts(matches: seq<Match>, capacity: nat)
    requires Ascending(matches)
    ensures var r := Top(matches, capacity);
      && Sorted(r, Ahead) && NoRepeats(r)
      && |r| == (if |matches| < capacity then |matches| else capacity)
      && (forall m :: m in r ==> m in matches)
      && (forall m, x :: m in matches && m !in r && x in r ==> !Ahead(m, x))
  {
    hide StrictWeak, Ahead, Sort;
    AheadIsStrictWeak();
    SortSorts(matches, Ahead);
    var s := Sort(matches, Ahead);
    AscendingHasNoRepeats(matches);
    PermutationHasNoRepeats(matches, s);
    SortKeepsLength(matches);
    forall m
      ensures m in matches <==> m in s
    {
      assert m in multiset(matches) <==> m in multiset(s);
    }
  }

  lemma AscendingHasNoRepeats(matches: seq<Match>)
    requires Ascending(matches)
    ensures NoRepeats(matches)
  {
  }

  lemma {:induction false} PermutationHasNoRepeats(a: seq<Match>, b: seq<Match>)
    requires NoRepeats(a) && multiset(a) == multiset(b)
    ensures NoRepeats(b)
  {
    forall i, j | 0 <= i < j < |b|
      ensures b[i].index != b[j].index
    {
      assert b[i] in multiset(a) && b[j] in multiset(a);
      var k :| 0 <= k < |a| && a[k] == b[i];
      var l :| 0 <= l < |a| && a[l] == b[j];
      if b[i] == b[j] {
        assert b == b[..j] + b[j..];
        assert b[i] in b[..j] && b[j] in b[j..];
        assert multiset(b)[b[i]] >= 2;
        Once(a, k);
        assert false;
      }
    }
  }

  lemma Once(a: seq<Match>, k: nat)
    requires NoRepeats(a) && k < |a|
    ensures multiset(a)[a[k]] == 1
  {
    assert a == a[..k] + [a[k]] + a[k + 1..];
    assert a[k] !in multiset(a[..k]) && a[k] !in multiset(a[k + 1..]);
  }

  /**
   A recall returns the best: as many eligible episodes of the scanned tail as the capacity allows,
   in rank order, none twice, and none left out that ranks before one returned.
   */
  lemma RecallIsTop(g: Associations, query: seq<nat>, episodes: seq<Episode>, limit: nat, capacity: nat, atEpoch: u64)
    requires query != []
    ensures var from := ScanStart(|episodes|, limit);
      var all, r := Matches(g, query, episodes, from, atEpoch), Ranked(g, query, episodes, limit, capacity, atEpoch);
      && Sorted(r, Ahead) && NoRepeats(r) && InRange(r, |episodes|)
      && |r| == (if |all| < capacity then |all| else capacity)
      && (forall m :: m in r ==> m in all)
      && (forall m, x :: m in all && m !in r && x in r ==> !Ahead(m, x))
  {
    hide EvidenceOf, Eligible, Ahead, Top, Sorted, NoRepeats;
    var from := ScanStart(|episodes|, limit);
    MatchesAscend(g, query, episodes, from, atEpoch);
    var all := Matches(g, query, episodes, from, atEpoch);
    TopFacts(all, capacity);
    EmptyIsFine();
    var r := Ranked(g, query, episodes, limit, capacity, atEpoch);
    forall i | 0 <= i < |r|
      ensures r[i].index < |episodes|
    {
      assert r[i] in all;
      MatchesAreTheEligible(g, query, episodes, from, atEpoch, r[i]);
    }
  }

  lemma EmptyIsFine()
    ensures Sorted<Match>([], Ahead) && NoRepeats([])
  {
  }

  /** The recall does not depend on how matches are sorted: every correct sort gives the same prefix. */
  lemma RecallIgnoresTheSort(
    g: Associations, query: seq<nat>, episodes: seq<Episode>, limit: nat, capacity: nat, atEpoch: u64, s: seq<Match>)
    requires query != [] && capacity > 0 && limit > 0 && episodes != [] && DistinctIds(episodes)
    requires Sorted(s, Ahead)
    requires multiset(s) == multiset(Matches(g, query, episodes, ScanStart(|episodes|, limit), atEpoch))
    ensures Ranked(g, query, episodes, limit, capacity, atEpoch) == if |s| < capacity then s else s[..capacity]
  {
    hide EvidenceOf, Eligible, Ahead, Matches, Sorted, NoTies, StrictWeak, Sort;
    var from := ScanStart(|episodes|, limit);
    var all := Matches(g, query, episodes, from, atEpoch);
    AheadIsStrictWeak();
    SortSorts(all, Ahead);
    MatchesNeverTie(g, query, episodes, from, atEpoch);
    PermutationNeverTies(all, s, Ahead);
    SortedIsUnique(s, Sort(all, Ahead), Ahead);
  }

  /** A window that covers the whole memory ranks as any other such window does. */
  lemma CoveringWindowsAgree(g: Associations, query: seq<nat>, episodes: seq<Episode>, limit: nat, other: nat, capacity: nat, atEpoch: u64)
    requires limit >= |episodes| && other >= |episodes|
    ensures Ranked(g, query, episodes, limit, capacity, atEpoch) == Ranked(g, query, episodes, other, capacity, atEpoch)
  {
    assert ScanStart(|episodes|, limit) == ScanStart(|episodes|, other);
  }

  // ---------------------------------------------------------------- counting a recall

  function Indices(matches: seq<Match>): set<nat> {
    set m | m in matches :: m.index
  }

  /** Exactly the returned episodes are counted, each once, and nothing else about them changes. */
  lemma {:induction false} MarkedAt(episodes: seq<Episode>, matches: seq<Match>, atEpoch: u64, i: nat)
    requires InRange(matches, |episodes|) && NoRepeats(matches) && i < |episodes|
    ensures var before, after := episodes[i], Marked(episodes, matches, atEpoch)[i];
      && (i !in Indices(matches) ==> after == before)
      && (i in Indices(matches) ==>
           && after.recallCount == (if before.recallCount < U64_MAX then before.recallCount + 1 else U64_MAX)
           && after == before.(recallCount := after.recallCount, lastRecallAt := atEpoch))
  {
    if matches != [] {
      var last := |matches| - 1;
      var before := matches[..last];
      MarkedAt(episodes, before, atEpoch, i);
      assert matches == before + [matches[last]];
      assert i in Indices(matches) <==> i in Indices(before) || i == matches[last].index;
      assert matches[last].index !in Indices(before);
    }
  }

  lemma {:induction false} IndicesCount(matches: seq<Match>)
    requires NoRepeats(matches)
    ensures |Indices(matches)| == |matches|
  {
    if matches != [] {
      var last := |matches| - 1;
      var before := matches[..last];
      IndicesCount(before);
      assert matches == before + [matches[last]];
      assert Indices(matches) == Indices(before) + {matches[last].index};
      assert matches[last].index !in Indices(before);
    }
  }

  // ---------------------------------------------------------------- recalling again

  /** The two memories differ in nothing that evidence is gathered from. */
  predicate SameContent(a: seq<Episode>, b: seq<Episode>) {
    |a| == |b| && forall i :: 0 <= i < |a| ==> a[i].summary == b[i].summary && a[i].ledgerId == b[i].ledgerId
  }

  lemma {:induction false} SameNumberOfMatches(
    g: Associations, query: seq<nat>, a: seq<Episode>, b: seq<Episode>, from: nat, atEpoch: u64)
    requires SameContent(a, b) && from <= |a|
    ensures |Matches(g, query, a, from, atEpoch)| == |Matches(g, query, b, from, atEpoch)|
    decreases |a| - from
  {
    if from < |a| {
      hide Gather, Recency, UseScore;
      SameNumberOfMatches(g, query, a, b, from + 1, atEpoch);
    }
  }

  /** A recalled episode keeps every lead it had. */
  lemma TouchKeepsTheLead(g: Associations, query: seq<nat>, x: Episode, y: Episode, i: nat, j: nat, atEpoch: u64)
    requires Ahead(MatchOf(g, query, x, i, atEpoch), MatchOf(g, query, y, j, atEpoch))
    ensures Ahead(MatchOf(g, query, Touch(x, atEpoch), i, atEpoch), MatchOf(g, query, y, j, atEpoch))
  {
    hide Gather, Recency, UseScore;
    if x.recallCount != U64_MAX {
      UseScoreGrows(x.recallCount);
    }
  }

  lemma RankedFacts(g: Associations, query: seq<nat>, episodes: seq<Episode>, limit: nat, capacity: nat, atEpoch: u64, i: nat, j: nat)
    requires query != [] && DistinctIds(episodes)
    requires i < |episodes| && j < |episodes|
    requires var r := Ranked(g, query, episodes, limit, capacity, atEpoch);
      i in Indices(r) && j !in Indices(r)
    ensures Eligible(EvidenceOf(g, query, episodes[i], atEpoch)) && i >= ScanStart(|episodes|, limit)
    ensures Eligible(EvidenceOf(g, query, episodes[j], atEpoch)) && j >= ScanStart(|episodes|, limit) ==>
              Ahead(MatchOf(g, query, episodes[i], i, atEpoch), MatchOf(g, query, episodes[j], j, atEpoch))
  {
    hide EvidenceOf, Eligible, Ahead, Matches, Ranked, Sorted, NoRepeats;
    var from := ScanStart(|episodes|, limit);
    var r := Ranked(g, query, episodes, limit, capacity, atEpoch);
    RecallIsTop(g, query, episodes, limit, capacity, atEpoch);
    var x :| x in r && x.index == i;
    MatchesAreTheEligible(g, query, episodes, from, atEpoch, x);
    var m := MatchOf(g, query, episodes[j], j, atEpoch);
    MatchesAreTheEligible(g, query, episodes, from, atEpoch, m);
    AheadIsStrictWeak();
    assert m.ledgerId == episodes[j].ledgerId && x.ledgerId == episodes[i].ledgerId;
    assert i != j;
  }

  /**
   Repeating a recall returns the same episodes, in whatever order: counting the returned ones never
   lets another episode overtake one of them.
   */
  lemma RecallIsRepeatable(g: Associations, query: seq<nat>, episodes: seq<Episode>, limit: nat, capacity: nat, atEpoch: u64)
    requires DistinctIds(episodes)
    ensures var r := Ranked(g, query, episodes, limit, capacity, atEpoch);
      && InRange(r, |episodes|)
      && Indices(Ranked(g, query, Marked(episodes, r, atEpoch), limit, capacity, atEpoch)) == Indices(r)
  {
    hide EvidenceOf, Eligible, Ahead, Matches, Sorted, NoRepeats, Top, Touch, MatchOf;
    if query != [] {
      var from := ScanStart(|episodes|, limit);
      var r := Ranked(g, query, episodes, limit, capacity, atEpoch);
      RecallIsTop(g, query, episodes, limit, capacity, atEpoch);
      var marked := Marked(episodes, r, atEpoch);
      MarkingKeepsContent(episodes, r, atEpoch);
      var again := Ranked(g, query, marked, limit, capacity, atEpoch);
      RecallIsTop(g, query, marked, limit, capacity, atEpoch);
      SameNumberOfMatches(g, query, episodes, marked, from, atEpoch);
      IndicesCount(r);
      IndicesCount(again);
      forall i, j | i in Indices(r) && i !in Indices(again)
        ensures j in Indices(r) || j !in Indices(again)
      {
        if j !in Indices(r) && j in Indices(again) {
          NoOvertaking(g, query, episodes, limit, capacity, atEpoch, i, j);
          assert false;
        }
      }
      EqualBySize(Indices(r), Indices(again));
    }
  }

  lemma EqualBySize(a: set<nat>, b: set<nat>)
    requires |a| == |b| && forall i, j :: i in a && i !in b ==> j in a || j !in b
    ensures a == b
  {
    var both := a * b;
    assert a == both + (a - b) && b == both + (b - a);
    assert |a| == |both| + |a - b| && |b| == |both| + |b - a|;
    assert a - b == {} || b - a == {};
  }

  lemma MarkingKeepsContent(episodes: seq<Episode>, r: seq<Match>, atEpoch: u64)
    requires InRange(r, |episodes|) && NoRepeats(r)
    ensures SameContent(episodes, Marked(episodes, r, atEpoch))
  {
    hide InRange, NoRepeats, Indices, Marked;
    forall i | 0 <= i < |episodes|
      ensures Marked(episodes, r, atEpoch)[i].summary == episodes[i].summary
      ensures Marked(episodes, r, atEpoch)[i].ledgerId == episodes[i].ledgerId
    {
      MarkedAt(episodes, r, atEpoch, i);
    }
  }

  /** After a recall that returned `i` but not `j`, the same recall cannot return `j` but not `i`. */
  lemma NoOvertaking(g: Associations, query: seq<nat>, episodes: seq<Episode>, limit: nat, capacity: nat, atEpoch: u64, i: nat, j: nat)
    requires query != [] && DistinctIds(episodes)
    requires InRange(Ranked(g, query, episodes, limit, capacity, atEpoch), |episodes|)
    requires NoRepeats(Ranked(g, query, episodes, limit, capacity, atEpoch))
    requires i in Indices(Ranked(g, query, episodes, limit, capacity, atEpoch))
    requires j !in Indices(Ranked(g, query, episodes, limit, capacity, atEpoch))
    requires j < |episodes|
    ensures var marked := Marked(episodes, Ranked(g, query, episodes, limit, capacity, atEpoch), atEpoch);
      var again := Indices(Ranked(g, query, marked, limit, capacity, atEpoch));
      !(i !in again && j in again)
  {
    hide Ahead, Matches, Sorted, NoRepeats, Top, Ranked, Gather, Recency, UseScore;
    var r := Ranked(g, query, episodes, limit, capacity, atEpoch);
    var marked := Marked(episodes, r, atEpoch);
    MarkingKeepsContent(episodes, r, atEpoch);
    MarkedAt(episodes, r, atEpoch, i);
    MarkedAt(episodes, r, atEpoch, j);
    RankedFacts(g, query, episodes, limit, capacity, atEpoch, i, j);
    var again := Indices(Ranked(g, query, marked, limit, capacity, atEpoch));
    if i !in again && j in again {
      RankedFacts(g, query, marked, limit, capacity, atEpoch, j, i);
      TouchKeepsTheLead(g, query, episodes[i], episodes[j], i, j, atEpoch);
      AheadIsStrictWeak();
    }
  }
}
