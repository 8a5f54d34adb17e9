/** What holds of every context selection, for any request, configuration and memory. */
module ContextLaws {
  import opened Bytes
  import opened Ranking
  import opened ContextItems
  import opened ContextBudget
  import opened Context
  import Sequences
  import R = Recall
  import L = RecallLaws

  // ---------------------------------------------------------------- the candidates

  lemma {:induction false} RecentPartFacts(core: Core, q: Request, from: nat)
    requires from <= |q.recent|
    ensures |RecentPart(core, q, from)| <= |q.recent| - from
    ensures forall x :: x in RecentPart(core, q, from) ==> x.inputIndex < |q.recent| && x == RecentItem(core, q, x.inputIndex)
    decreases |q.recent| - from
  {
    if from < |q.recent| {
      RecentPartFacts(core, q, from + 1);
    }
  }

  /** Every candidate is one of the five parts' items, and its kind says which. */
  lemma CandidateIs(core: Core, g: R.Associations, episodes: seq<R.Episode>, c: Config, q: Request, x: Item)
    requires x in Candidates(core, g, episodes, c, q)
    ensures x.kind == Immediate ==> x == ImmediateItem(core, q) && x.available > 0
    ensures x.kind == Recent ==> x.inputIndex < |q.recent| && x == RecentItem(core, q, x.inputIndex)
    ensures x.kind == AuthorState ==> [x] == AuthorPart(core, q)
    ensures x.kind == SourceState ==> [x] == SourcePart(core, q)
    ensures x.kind == Memory ==>
              exists m :: m in Remembered(core, g, episodes, c, q) && x == MemoryItem(R.Recalled(episodes[m.index], m.evidence))
    ensures x.score <= 1.0 && x.selected == 0 && !x.truncated
  {
    hide Remembered, CountTokens, Familiarity, R.Recency, R.BoundedExposure;
    RecentPartFacts(core, q, 0);
    var matches := Remembered(core, g, episodes, c, q);
    var copies := R.Copies(episodes, matches);
    if x in MemoryPart(copies) {
      var i :| 0 <= i < |copies| && x == MemoryItem(copies[i]);
      assert matches[i] in matches && copies[i] == R.Recalled(episodes[matches[i].index], matches[i].evidence);
    } else if x in RecentPart(core, q, 0) {
      assert x.kind == Recent;
    } else {
      assert x in ImmediatePart(core, q) || x in AuthorPart(core, q) || x in SourcePart(core, q);
    }
  }

  /** The candidates always fit the fixed buffer. */
  lemma CandidatesFit(core: Core, g: R.Associations, episodes: seq<R.Episode>, c: Config, q: Request)
    requires ConfigValid(c) && RequestValid(q)
    ensures |Candidates(core, g, episodes, c, q)| <= CAPACITY
    ensures CountKind(Candidates(core, g, episodes, c, q), Memory) <= c.maxMemory
  {
    hide Remembered, CountTokens;
    RecentPartFacts(core, q, 0);
    var memories := MemoryPart(R.Copies(episodes, Remembered(core, g, episodes, c, q)));
    RememberedFit(core, g, episodes, c, q);
    var a, r, b := ImmediatePart(core, q), RecentPart(core, q, 0), AuthorPart(core, q);
    CountJoin(a + memories + r + b, SourcePart(core, q), Memory);
    CountJoin(a + memories + r, b, Memory);
    CountJoin(a + memories, r, Memory);
    CountJoin(a, memories, Memory);
    CountAtMost(memories, Memory);
    CountNone(a, Memory);
    CountNone(r, Memory);
    CountNone(b, Memory);
    CountNone(SourcePart(core, q), Memory);
  }

  lemma RememberedFit(core: Core, g: R.Associations, episodes: seq<R.Episode>, c: Config, q: Request)
    ensures |Remembered(core, g, episodes, c, q)| <= c.maxMemory
  {
  }

  lemma {:induction false} CountJoin(a: seq<Item>, b: seq<Item>, kind: Kind)
    ensures CountKind(a + b, kind) == CountKind(a, kind) + CountKind(b, kind)
  {
    if b == [] {
      assert a + b == a;
    } else {
      CountJoin(a, b[..|b| - 1], kind);
      assert (a + b)[..|a + b| - 1] == a + b[..|b| - 1];
    }
  }

  lemma {:induction false} CountAtMost(a: seq<Item>, kind: Kind)
    ensures CountKind(a, kind) <= |a|
  {
    if a != [] {
      CountAtMost(a[..|a| - 1], kind);
    }
  }

  lemma {:induction false} CountNone(a: seq<Item>, kind: Kind)
    requires forall x :: x in a ==> x.kind != kind
    ensures CountKind(a, kind) == 0
  {
    if a != [] {
      CountNone(a[..|a| - 1], kind);
    }
  }

  /** Reordering does not change how many items of a kind there are. */
  lemma {:induction false} CountPermutes(a: seq<Item>, b: seq<Item>, kind: Kind)
    requires multiset(a) == multiset(b)
    ensures CountKind(a, kind) == CountKind(b, kind)
  {
    SameLength(a, b);
    if a != [] {
      var last := |a| - 1;
      assert a[last] in multiset(b);
      var k :| 0 <= k < |b| && b[k] == a[last];
      RemoveBoth(a, b, k);
      CountPermutes(a[..last], b[..k] + b[k + 1..], kind);
      CountWithout(b, k, kind);
    }
  }

  lemma RemoveBoth(a: seq<Item>, b: seq<Item>, k: nat)
    requires multiset(a) == multiset(b) && k < |b| && a != [] && b[k] == a[|a| - 1]
    ensures multiset(a[..|a| - 1]) == multiset(b[..k] + b[k + 1..])
  {
    var x := b[k];
    assert a == a[..|a| - 1] + [x];
    assert b == b[..k] + [x] + b[k + 1..];
    Cancel(multiset(a[..|a| - 1]), multiset(b[..k] + b[k + 1..]), x);
  }

  lemma Cancel(m: multiset<Item>, n: multiset<Item>, x: Item)
    requires m + multiset{x} == n + multiset{x}
    ensures m == n
  {
    assert m == m + multiset{x} - multiset{x};
    assert n == n + multiset{x} - multiset{x};
  }

  lemma CountWithout(b: seq<Item>, k: nat, kind: Kind)
    requires k < |b|
    ensures CountKind(b, kind) == CountKind(b[..k] + b[k + 1..], kind) + (if b[k].kind == kind then 1 else 0)
  {
    hide CountKind;
    assert b == b[..k] + [b[k]] + b[k + 1..];
    CountJoin(b[..k], [b[k]], kind);
    CountJoin(b[..k] + [b[k]], b[k + 1..], kind);
    CountJoin(b[..k], b[k + 1..], kind);
    CountOne(b[k], kind);
  }

  lemma CountOne(x: Item, kind: Kind)
    ensures CountKind([x], kind) == if x.kind == kind then 1 else 0
  {
  }

  /** Candidates are never tied when no two episodes share a ledger id. */
  lemma CandidatesNeverTie(core: Core, g: R.Associations, episodes: seq<R.Episode>, c: Config, q: Request)
    requires L.DistinctIds(episodes)
    ensures NoTies(Candidates(core, g, episodes, c, q), Ahead)
  {
    hide Compare, Candidates, Remembered;
    var s := Candidates(core, g, episodes, c, q);
    forall i, j | 0 <= i < |s| && 0 <= j < |s| && s[i] != s[j]
      ensures Ahead(s[i], s[j]) || Ahead(s[j], s[i])
    {
      DifferentCandidates(core, g, episodes, c, q, s[i], s[j]);
      CompareFlips(s[i], s[j]);
    }
  }

  lemma DifferentCandidates(core: Core, g: R.Associations, episodes: seq<R.Episode>, c: Config, q: Request, x: Item, y: Item)
    requires L.DistinctIds(episodes)
    requires x in Candidates(core, g, episodes, c, q) && y in Candidates(core, g, episodes, c, q) && x != y
    ensures x.kind != y.kind || x.ledgerId != y.ledgerId || x.inputIndex != y.inputIndex
  {
    hide Candidates, Remembered, ImmediateItem, RecentItem, AuthorPart, SourcePart, MemoryItem, L.DistinctIds;
    CandidateIs(core, g, episodes, c, q, x);
    CandidateIs(core, g, episodes, c, q, y);
    if x.kind == Memory && y.kind == Memory {
      var matches := Remembered(core, g, episodes, c, q);
      var m :| m in matches && x == MemoryItem(R.Recalled(episodes[m.index], m.evidence));
      var n :| n in matches && y == MemoryItem(R.Recalled(episodes[n.index], n.evidence));
      DifferentMemories(episodes, matches, m, n);
    }
  }

  lemma DifferentMemories(episodes: seq<R.Episode>, matches: seq<R.Match>, m: R.Match, n: R.Match)
    requires L.DistinctIds(episodes) && R.InRange(matches, |episodes|) && L.NoRepeats(matches)
    requires m in matches && n in matches && m != n
    ensures MemoryItem(R.Recalled(episodes[m.index], m.evidence)).ledgerId !=
            MemoryItem(R.Recalled(episodes[n.index], n.evidence)).ledgerId
  {
    var i :| 0 <= i < |matches| && matches[i] == m;
    var j :| 0 <= j < |matches| && matches[j] == n;
    assert i < j || j < i;
    assert m.index < n.index || n.index < m.index;
  }

  // ---------------------------------------------------------------- the selection

  lemma SortedCandidates(core: Core, g: R.Associations, episodes: seq<R.Episode>, c: Config, q: Request)
    ensures var (all, s) := (Candidates(core, g, episodes, c, q), Sort(Candidates(core, g, episodes, c, q), Ahead));
      Sorted(s, Ahead) && multiset(s) == multiset(all) && Fresh(s) && forall x :: x in s ==> x in all
  {
    hide Candidates, Ahead, Sorted;
    AheadIsStrictWeak();
    var all := Candidates(core, g, episodes, c, q);
    SortSorts(all, Ahead);
    var s := Sort(all, Ahead);
    forall x | x in s
      ensures x in all
    {
      assert x in multiset(all);
    }
    forall i | 0 <= i < |s|
      ensures s[i].selected == 0 && !s[i].truncated
    {
      CandidateIs(core, g, episodes, c, q, s[i]);
    }
  }

  /**
   Every successful selection is a subsequence of the ranked candidates within all five budgets: the
   buffer, the items, the tokens, the recents and the memories.
   */
  lemma SelectionIsBounded(core: Core, g: R.Associations, episodes: seq<R.Episode>, c: Config, q: Request)
    requires StatusOf(core, c, q, |episodes|) == Ok
    ensures var r := Outcome(core, g, episodes, c, q);
      && |Candidates(core, g, episodes, c, q)| <= CAPACITY
      && Within(c, r) && CountKind(r.items, Memory) <= c.maxMemory
      && Picked(r.items, Sort(Candidates(core, g, episodes, c, q), Ahead))
  {
    hide Candidates, Ahead, Sort, Sorted, Picked, RecallStatus, Choose, RequestValid;
    var s := Sort(Candidates(core, g, episodes, c, q), Ahead);
    SortedCandidates(core, g, episodes, c, q);
    CandidatesFit(core, g, episodes, c, q);
    var header := Header(c, q, |episodes|, true);
    ChooseStaysWithin(c, s, header);
    ChoosePicks(c, s, header);
    var r := Choose(c, s, header);
    assert r.items[|header.items|..] == r.items;
    PickedCount(r.items, s, Memory);
    CountPermutes(Candidates(core, g, episodes, c, q), s, Memory);
  }

  /** The flags tell exactly whether anything but surplus recents was cut or left out. */
  lemma FlagsTellWhatWasDropped(core: Core, g: R.Associations, episodes: seq<R.Episode>, c: Config, q: Request)
    requires StatusOf(core, c, q, |episodes|) == Ok
    ensures var r := Outcome(core, g, episodes, c, q);
      var kept := KeepRecents(Sort(Candidates(core, g, episodes, c, q), Ahead), c.maxRecent);
      && (!r.itemLimit && !r.tokenLimit <==> |kept| <= c.maxItems && Demand(kept) <= c.maxTokens)
      && (!r.itemLimit && !r.tokenLimit ==> r.items == Whole(kept))
  {
    hide Candidates, Ahead, Sort, Sorted, RecallStatus, Choose, KeepRecents, Whole, Demand, RequestValid;
    SortedCandidates(core, g, episodes, c, q);
    var s, header := Sort(Candidates(core, g, episodes, c, q), Ahead), Header(c, q, |episodes|, true);
    FlagsAreExact(c, s, header);
    Sequences.EmptyJoin(Whole(KeepRecents(s, c.maxRecent)));
  }

  lemma {:induction false} PickedMember(items: seq<Item>, rest: seq<Item>, k: nat)
    requires Picked(items, rest) && k < |items|
    ensures exists j :: 0 <= j < |rest| && Same(items[k], rest[j])
    decreases |rest|
  {
    if Same(items[0], rest[0]) && Picked(items[1..], rest[1..]) {
      if k > 0 {
        PickedMember(items[1..], rest[1..], k - 1);
        var j :| 0 <= j < |rest[1..]| && Same(items[1..][k - 1], rest[1..][j]);
        assert Same(items[k], rest[j + 1]);
      }
    } else {
      PickedMember(items, rest[1..], k);
      var j :| 0 <= j < |rest[1..]| && Same(items[k], rest[1..][j]);
      assert Same(items[k], rest[j + 1]);
    }
  }

  lemma ImmediateSortsFirst(core: Core, g: R.Associations, episodes: seq<R.Episode>, c: Config, q: Request)
    requires CountTokens(core, q.immediate) > 0
    ensures var s := Sort(Candidates(core, g, episodes, c, q), Ahead); s != [] && s[0] == ImmediateItem(core, q)
  {
    hide Ahead, Sort, CountTokens, StrictWeak, Remembered, Fresh;
    var all, x := Candidates(core, g, episodes, c, q), ImmediateItem(core, q);
    SortedCandidates(core, g, episodes, c, q);
    var s := Sort(all, Ahead);
    assert ImmediatePart(core, q)[0] == x;
    assert all[0] == x;
    assert x in multiset(s);
    var j :| 0 <= j < |s| && s[j] == x;
    CandidateIs(core, g, episodes, c, q, s[0]);
    if s[0] != x {
      ImmediateLeads(x, s[0]);
    }
  }

  lemma ImmediateIsTaken(c: Config, s: seq<Item>, header: Selection)
    requires header.items == [] && header.tokens == 0 && c.maxItems > 0 && c.maxTokens > 0
    requires s != [] && s[0].kind == Immediate
    ensures var r := Choose(c, s, header); r.items != [] && r.items[0] == Cut(s[0], c.maxTokens)
  {
    var t := Take(c, header, s[0]);
    ChoosePicks(c, s[1..], t);
    assert t.items == [Cut(s[0], c.maxTokens)];
  }

  lemma ImmediateIsPicked(core: Core, g: R.Associations, episodes: seq<R.Episode>, c: Config, q: Request, items: seq<Item>, k: nat)
    requires Picked(items, Sort(Candidates(core, g, episodes, c, q), Ahead))
    requires k < |items| && items[k].kind == Immediate
    ensures CountTokens(core, q.immediate) > 0
  {
    hide Candidates, Ahead, Sort, Sorted, Picked, CountTokens, Fresh;
    var s := Sort(Candidates(core, g, episodes, c, q), Ahead);
    SortedCandidates(core, g, episodes, c, q);
    PickedMember(items, s, k);
    var j :| 0 <= j < |s| && Same(items[k], s[j]);
    CandidateIs(core, g, episodes, c, q, s[j]);
  }

  /** The immediate input is selected exactly when it has any token, and then it is first. */
  lemma ImmediateIsFirstIff(core: Core, g: R.Associations, episodes: seq<R.Episode>, c: Config, q: Request)
    requires StatusOf(core, c, q, |episodes|) == Ok
    ensures var r := Outcome(core, g, episodes, c, q);
      && (CountTokens(core, q.immediate) > 0 <==> exists k :: 0 <= k < |r.items| && r.items[k].kind == Immediate)
      && (CountTokens(core, q.immediate) > 0 ==> r.items != [] && r.items[0] == Cut(ImmediateItem(core, q), c.maxTokens))
  {
    hide Candidates, Ahead, Sort, Sorted, Picked, RecallStatus, CountTokens, RequestValid, Choose, Within;
    var s, header := Sort(Candidates(core, g, episodes, c, q), Ahead), Header(c, q, |episodes|, true);
    var r := Choose(c, s, header);
    SelectionIsBounded(core, g, episodes, c, q);
    if CountTokens(core, q.immediate) > 0 {
      ImmediateSortsFirst(core, g, episodes, c, q);
      ImmediateIsTaken(c, s, header);
      assert r.items[0].kind == Immediate;
    }
    forall k | 0 <= k < |r.items| && r.items[k].kind == Immediate
      ensures CountTokens(core, q.immediate) > 0
    {
      ImmediateIsPicked(core, g, episodes, c, q, r.items, k);
    }
  }

  /** The selection does not depend on how candidates are sorted. */
  lemma SelectionIgnoresTheSort(
    core: Core, g: R.Associations, episodes: seq<R.Episode>, c: Config, q: Request, s: seq<Item>)
    requires StatusOf(core, c, q, |episodes|) == Ok && L.DistinctIds(episodes)
    requires Sorted(s, Ahead) && multiset(s) == multiset(Candidates(core, g, episodes, c, q))
    ensures Outcome(core, g, episodes, c, q) == Choose(c, s, Header(c, q, |episodes|, true))
  {
    hide Candidates, Ahead, Sort, Sorted, RecallStatus, Choose, NoTies, Fresh, RequestValid;
    var all := Candidates(core, g, episodes, c, q);
    SortedCandidates(core, g, episodes, c, q);
    CandidatesNeverTie(core, g, episodes, c, q);
    PermutationNeverTies(all, s, Ahead);
    SortedIsUnique(s, Sort(all, Ahead), Ahead);
  }
}
