/** What the candidates, their order, the greedy choice and the counters of a context selection mean. */
module ContextMeaning {
  import opened Bytes
  import opened Options
  import opened ContextItems
  import opened ContextBudget
  import opened Context
  import opened ContextLaws
  import Ranking
  import R = Recall
  import EM = EpisodicMemory

  // ---------------------------------------------------------------- the candidates

  /** Familiarity n / (n + 1) of n encounters, and one when the count is saturated. */
  lemma FamiliarityIs(encounters: u64)
    ensures encounters < R.U64_MAX ==> Familiarity(encounters) * (encounters as real + 1.0) == encounters as real
    ensures encounters == R.U64_MAX ==> Familiarity(encounters) == 1.0
  {
  }

  /** Memories are recalled for a non-empty immediate input when both their limits are positive. */
  lemma RememberedIs(core: Core, g: R.Associations, episodes: seq<R.Episode>, c: Config, q: Request)
    ensures q.immediate != [] && c.maxMemory > 0 && c.maxScan > 0 && core.memory && core.nodes(q.immediate).Some? ==>
              Remembered(core, g, episodes, c, q) ==
              R.Ranked(g, core.nodes(q.immediate).value, episodes, c.maxScan, c.maxMemory, q.atEpoch)
    ensures q.immediate == [] || c.maxMemory == 0 || c.maxScan == 0 ==> Remembered(core, g, episodes, c, q) == []
  {
  }

  predicate HasTokens(core: Core, text: seq<byte>) {
    text != [] && core.tokens(text) > 0
  }

  predicate IsImmediate(core: Core, q: Request, x: Item) {
    HasTokens(core, q.immediate) &&
    x == Item(Immediate, 1.0, 0, core.tokens(q.immediate), false, NO_INDEX, q.atEpoch, 0, q.sourceId, q.author)
  }

  predicate IsMemory(e: R.Episode, evidence: R.Evidence, x: Item) {
    x == Item(Memory, R.BoundedExposure(evidence.score), 0, |e.summary|, false, NO_INDEX,
              e.observedAt, e.ledgerId, e.sourceId, e.author)
  }

  predicate IsRecent(core: Core, q: Request, i: nat, x: Item)
    requires i < |q.recent|
  {
    var input := q.recent[i];
    HasTokens(core, input.text) &&
    x == Item(Recent, R.Recency(input.observedAt, q.atEpoch), 0, core.tokens(input.text), false, i,
              input.observedAt, 0, input.sourceId, input.author)
  }

  predicate IsAuthor(core: Core, q: Request, x: Item) {
    q.author != [] && core.author(q.author).Known? && var known := core.author(q.author);
      x == Item(AuthorState, Familiarity(known.encounters), 0, 0, false, NO_INDEX, known.lastSeen, 0, [], q.author)
  }

  predicate IsSource(core: Core, q: Request, x: Item) {
    q.sourceId != [] && core.source(q.sourceId).Known? && var known := core.source(q.sourceId);
      x == Item(SourceState, Familiarity(known.encounters), 0, 0, false, NO_INDEX, known.lastSeen, 0, q.sourceId, [])
  }

  /**
   An item is a candidate if and only if it is the immediate input with a token, a recalled memory, a
   recent input with a token, the known author or the known source, with these fields.
   */
  lemma CandidateIff(core: Core, g: R.Associations, episodes: seq<R.Episode>, c: Config, q: Request, x: Item)
    ensures x in Candidates(core, g, episodes, c, q) <==>
              || IsImmediate(core, q, x)
              || (exists m :: m in Remembered(core, g, episodes, c, q) && IsMemory(episodes[m.index], m.evidence, x))
              || (exists i: nat :: i < |q.recent| && IsRecent(core, q, i, x))
              || IsAuthor(core, q, x) || IsSource(core, q, x)
  {
    hide Remembered, Familiarity, R.Recency, R.BoundedExposure, IsMemory, IsRecent;
    MemoryPartIff(episodes, Remembered(core, g, episodes, c, q), x);
    RecentPartIff(core, q, 0, x);
    assert x in ImmediatePart(core, q) <==> IsImmediate(core, q, x);
    assert x in AuthorPart(core, q) <==> IsAuthor(core, q, x);
    assert x in SourcePart(core, q) <==> IsSource(core, q, x);
  }

  lemma MemoryPartIff(episodes: seq<R.Episode>, matches: seq<R.Match>, x: Item)
    requires R.InRange(matches, |episodes|)
    ensures x in MemoryPart(R.Copies(episodes, matches)) <==>
            exists m :: m in matches && IsMemory(episodes[m.index], m.evidence, x)
  {
    hide R.BoundedExposure;
    var copies := R.Copies(episodes, matches);
    forall i | 0 <= i < |matches|
      ensures MemoryPart(copies)[i] == x <==> IsMemory(episodes[matches[i].index], matches[i].evidence, x)
    {
    }
    if m :| m in matches && IsMemory(episodes[m.index], m.evidence, x) {
      var i :| 0 <= i < |matches| && matches[i] == m;
      assert MemoryPart(copies)[i] == x;
    }
  }

  lemma {:induction false} RecentPartIff(core: Core, q: Request, from: nat, x: Item)
    requires from <= |q.recent|
    ensures x in RecentPart(core, q, from) <==> exists i: nat :: from <= i < |q.recent| && IsRecent(core, q, i, x)
    decreases |q.recent| - from
  {
    hide R.Recency;
    if from < |q.recent| {
      RecentPartIff(core, q, from + 1, x);
      RecentItemIff(core, q, from, x);
    }
  }

  lemma RecentItemIff(core: Core, q: Request, i: nat, x: Item)
    requires i < |q.recent|
    ensures IsRecent(core, q, i, x) <==> CountTokens(core, q.recent[i].text) > 0 && x == RecentItem(core, q, i)
  {
  }

  // ---------------------------------------------------------------- the order

  /** `a` is a proper beginning of `b`, or has the smaller byte where they first differ. */
  predicate Before(a: seq<byte>, b: seq<byte>) {
    a < b || exists k: nat :: k < |a| && k < |b| && a[..k] == b[..k] && a[k] < b[k]
  }

  lemma {:induction false} StringCompareIs(a: seq<byte>, b: seq<byte>)
    ensures StringCompare(a, b) < 0 <==> Before(a, b)
  {
    if a != [] && b != [] {
      var s, t := a[1..], b[1..];
      assert a == [a[0]] + s && b == [b[0]] + t;
      if a[0] == b[0] {
        hide Before;
        StringCompareIs(s, t);
        BeforeInTails(a, b);
      } else if a[0] < b[0] {
        assert a[..0] == b[..0];
      } else {
        assert !(a < b);
        assert forall k: nat :: 0 < k < |a| && k < |b| ==> a[..k][0] == a[0] && b[..k][0] == b[0];
      }
    }
  }

  lemma BeforeInTails(a: seq<byte>, b: seq<byte>)
    requires a != [] && b != [] && a[0] == b[0]
    ensures Before(a, b) <==> Before(a[1..], b[1..])
  {
    var s, t := a[1..], b[1..];
    assert a == [a[0]] + s && b == [b[0]] + t;
    assert a < b <==> s < t;
    if k: nat :| k < |s| && k < |t| && s[..k] == t[..k] && s[k] < t[k] {
      assert a[..k + 1] == [a[0]] + s[..k] && b[..k + 1] == [b[0]] + t[..k];
      assert a[k + 1] < b[k + 1];
    }
    if k: nat :| k < |a| && k < |b| && a[..k] == b[..k] && a[k] < b[k] {
      assert s[..k - 1] == a[..k][1..] && t[..k - 1] == b[..k][1..];
      assert s[k - 1] < t[k - 1];
    }
  }

  /** Immediate input, memories, recent inputs, author and source, in this order. */
  predicate KindFirst(a: Kind, b: Kind) {
    match a
    case Immediate => b != Immediate
    case Memory => b == Recent || b == AuthorState || b == SourceState
    case Recent => b == AuthorState || b == SourceState
    case AuthorState => b == SourceState
    case SourceState => false
  }

  /**
   The order of the candidates: the higher score, the earlier kind, the later time, the larger ledger
   id, the smaller source, the smaller author, and then the smaller input index.
   */
  lemma OrderIs(a: Item, b: Item)
    ensures Ahead(a, b) <==>
            a.score > b.score || (a.score == b.score &&
              (KindFirst(a.kind, b.kind) || (a.kind == b.kind &&
                (a.observedAt > b.observedAt || (a.observedAt == b.observedAt &&
                  (a.ledgerId > b.ledgerId || (a.ledgerId == b.ledgerId &&
                    (Before(a.sourceId, b.sourceId) || (a.sourceId == b.sourceId &&
                      (Before(a.author, b.author) || (a.author == b.author && a.inputIndex < b.inputIndex)))))))))))
  {
    hide StringCompare, Before;
    StringCompareIs(a.sourceId, b.sourceId);
    StringCompareIs(a.author, b.author);
    StringCompareFlips(a.sourceId, b.sourceId);
    StringCompareFlips(a.author, b.author);
  }

  // ---------------------------------------------------------------- the greedy choice

  /** The candidate as it is selected with `left` tokens to spend. */
  predicate CutTo(x: Item, left: nat, y: Item) {
    if x.available == 0 then y == x
    else y == x.(selected := y.selected, truncated := x.available > left)
         && y.selected == (if x.available <= left then x.available else left)
  }

  /**
   What becomes of a candidate depends on what the ones ranked before it left: a surplus recent is
   passed over; when the items are full the choice ends; text that finds no token left is passed
   over with the token flag; anything else is selected last, cut to the tokens left.
   */
  predicate Follows(c: Config, r: Selection, x: Item, t: Selection)
    requires r.tokens <= c.maxTokens
  {
    if r.itemLimit || (x.kind == Recent && CountKind(r.items, Recent) >= c.maxRecent) then t == r
    else if |r.items| >= c.maxItems then t == r.(itemLimit := true)
    else if x.available > 0 && r.tokens == c.maxTokens then t == r.(tokenLimit := true)
    else
      && |t.items| == |r.items| + 1 && t.items[..|r.items|] == r.items
      && CutTo(x, c.maxTokens - r.tokens, t.items[|r.items|])
      && t.tokens == r.tokens + (if x.available == 0 then 0 else t.items[|r.items|].selected)
      && t == r.(items := t.items, tokens := t.tokens,
                 tokenLimit := r.tokenLimit || x.available > c.maxTokens - r.tokens)
  }

  lemma {:induction false} NextCandidate(c: Config, ranked: seq<Item>, x: Item, s: Selection)
    requires s.tokens <= c.maxTokens && !s.itemLimit
    ensures Follows(c, Choose(c, ranked, s), x, Choose(c, ranked + [x], s))
    decreases |ranked|
  {
    hide CountKind, Follows, Take;
    if ranked == [] {
      assert ranked + [x] == [x];
      OnlyCandidate(c, x, s);
    } else {
      var item := ranked[0];
      assert (ranked + [x])[0] == item && (ranked + [x])[1..] == ranked[1..] + [x];
      if SkipsRecent(c, s, item) {
        NextCandidate(c, ranked[1..], x, s);
      } else if |s.items| >= c.maxItems {
        NothingFollows(c, x, s.(itemLimit := true));
      } else if item.available > 0 && c.maxTokens == s.tokens {
        NextCandidate(c, ranked[1..], x, s.(tokenLimit := true));
      } else {
        TakeKeeps(c, s, item);
        NextCandidate(c, ranked[1..], x, Take(c, s, item));
      }
    }
  }

  lemma NothingFollows(c: Config, x: Item, r: Selection)
    requires r.tokens <= c.maxTokens && r.itemLimit
    ensures Follows(c, r, x, r)
  {
  }

  lemma OnlyCandidate(c: Config, x: Item, s: Selection)
    requires s.tokens <= c.maxTokens && !s.itemLimit
    ensures Choose(c, [], s) == s && Follows(c, s, x, Choose(c, [x], s))
  {
    hide CountKind;
    assert [x][1..] == [];
  }

  lemma TakeKeeps(c: Config, s: Selection, item: Item)
    requires s.tokens <= c.maxTokens
    ensures var t := Take(c, s, item);
      && t.tokens <= c.maxTokens && t.itemLimit == s.itemLimit
      && t.recentScored == s.recentScored && t.scanned == s.scanned && t.scanTruncated == s.scanTruncated
  {
  }

  // ---------------------------------------------------------------- the counters

  lemma {:induction false} ChoiceKeepsCounters(c: Config, rest: seq<Item>, s: Selection)
    requires s.tokens <= c.maxTokens
    ensures var r := Choose(c, rest, s);
      r.recentScored == s.recentScored && r.scanned == s.scanned && r.scanTruncated == s.scanTruncated
    decreases |rest|
  {
    hide Take, CountKind;
    if rest != [] {
      TakeKeeps(c, s, rest[0]);
      if SkipsRecent(c, s, rest[0]) {
        ChoiceKeepsCounters(c, rest[1..], s);
      } else if |s.items| < c.maxItems && rest[0].available > 0 && c.maxTokens == s.tokens {
        ChoiceKeepsCounters(c, rest[1..], s.(tokenLimit := true));
      } else if |s.items| < c.maxItems {
        ChoiceKeepsCounters(c, rest[1..], Take(c, s, rest[0]));
      }
    }
  }

  /**
   The counters: every recent input is scored unless recall failed before it; the scan, made only
   when memories are recalled, covers the newest episodes up to its limit and says whether that left
   any out; and nothing is counted of an invalid request.
   */
  lemma CountersAre(core: Core, g: R.Associations, episodes: seq<R.Episode>, c: Config, q: Request)
    ensures var status, r := StatusOf(core, c, q, |episodes|), Outcome(core, g, episodes, c, q);
      && (status == InvalidArgument ==> r == Selection([], 0, 0, 0, false, false, false))
      && (status == Ok || status == LookupFailed ==> r.recentScored == |q.recent|)
      && (status.RecallFailed? ==> r.recentScored == 0)
      && (status != Ok ==> r.items == [] && r.tokens == 0 && !r.itemLimit && !r.tokenLimit)
      && (status != InvalidArgument ==>
           if q.immediate == [] || c.maxMemory == 0 || c.maxScan == 0 then r.scanned == 0 && !r.scanTruncated
           else r.scanned <= c.maxScan && r.scanned <= |episodes| &&
                (r.scanned == c.maxScan || r.scanned == |episodes|) && (r.scanTruncated <==> |episodes| > c.maxScan))
  {
    hide Candidates, Choose, RecallStatus, RequestValid;
    var header := Header(c, q, |episodes|, true);
    ChoiceKeepsCounters(c, Ranking.Sort(Candidates(core, g, episodes, c, q), Ahead), header);
  }

  /**
   A selection succeeds exactly for a valid configuration and request whose recall, when one is
   made, succeeds, and whose named author and source can be looked up.
   */
  lemma SucceedsIff(core: Core, c: Config, q: Request, count: nat)
    ensures StatusOf(core, c, q, count) == Ok <==>
              && 1 <= c.maxItems <= 16 && 1 <= c.maxTokens <= 256
              && c.maxRecent <= 32 && c.maxMemory <= 8 && c.maxScan <= 4096
              && |q.immediate| <= 65536 && |q.sourceId| <= 255 && |q.author| <= 255 && |q.recent| <= 32
              && (forall i :: 0 <= i < |q.recent| ==>
                   |q.recent[i].text| <= 65536 && |q.recent[i].sourceId| <= 255 && |q.recent[i].author| <= 255)
              && (q.immediate != [] && c.maxMemory > 0 && c.maxScan > 0 && count > 0 ==>
                   && core.nodes(q.immediate).Some?
                   && (core.nodes(q.immediate).value != [] ==> core.memory))
              && (q.author != [] ==> !core.author(q.author).Failed?)
              && (q.sourceId != [] ==> !core.source(q.sourceId).Failed?)
  {
  }
}
