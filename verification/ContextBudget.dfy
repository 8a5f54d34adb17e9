/**
 The greedy selection: candidates are taken in rank order while the item, token and recent budgets
 last, the last one cut to the tokens that remain.
 */
module ContextBudget {
  import opened ContextItems
  import Sequences

  datatype Config = Config(maxItems: nat, maxRecent: nat, maxMemory: nat, maxTokens: nat, maxScan: nat)

  predicate ConfigValid(c: Config) {
    0 < c.maxItems <= 16 && c.maxRecent <= 32 && c.maxMemory <= 8 && 0 < c.maxTokens <= 256 && c.maxScan <= 4096
  }

  datatype Selection = Selection(
    items: seq<Item>, tokens: nat, recentScored: nat, scanned: nat,
    itemLimit: bool, tokenLimit: bool, scanTruncated: bool)

  function CountKind(items: seq<Item>, kind: Kind): nat {
    if items == [] then 0
    else CountKind(items[..|items| - 1], kind) + if items[|items| - 1].kind == kind then 1 else 0
  }

  function Selected(items: seq<Item>): nat {
    if items == [] then 0 else Selected(items[..|items| - 1]) + items[|items| - 1].selected
  }

  function Available(items: seq<Item>): nat {
    if items == [] then 0 else Available(items[..|items| - 1]) + items[|items| - 1].available
  }

  /** The item as it is selected when `remaining` tokens are left. */
  function Cut(item: Item, remaining: nat): Item {
    if item.available == 0 then item
    else
      var selected := if item.available < remaining then item.available else remaining;
      item.(selected := selected, truncated := selected < item.available)
  }

  function Take(c: Config, s: Selection, item: Item): Selection
    requires s.tokens <= c.maxTokens
  {
    var cut := Cut(item, c.maxTokens - s.tokens);
    s.(items := s.items + [cut], tokens := s.tokens + if item.available == 0 then 0 else cut.selected,
       tokenLimit := s.tokenLimit || (item.available > 0 && cut.truncated))
  }

  predicate SkipsRecent(c: Config, s: Selection, item: Item) {
    item.kind.Recent? && CountKind(s.items, Recent) >= c.maxRecent
  }

  function Choose(c: Config, rest: seq<Item>, s: Selection): (r: Selection)
    requires s.tokens <= c.maxTokens
    ensures r.tokens <= c.maxTokens
  {
    if rest == [] then s
    else
      var item := rest[0];
      if SkipsRecent(c, s, item) then Choose(c, rest[1..], s)
      else if |s.items| >= c.maxItems then s.(itemLimit := true)
      else if item.available > 0 && c.maxTokens == s.tokens then Choose(c, rest[1..], s.(tokenLimit := true))
      else Choose(c, rest[1..], Take(c, s, item))
  }

  // ---------------------------------------------------------------- what holds of every selection

  /** No item has been cut yet. */
  predicate Fresh(items: seq<Item>) {
    forall i :: 0 <= i < |items| ==> items[i].selected == 0 && !items[i].truncated
  }

  /** An item shows how much of it was selected: something if it has text, all of it unless truncated. */
  predicate WellCut(item: Item) {
    && item.selected <= item.available
    && (item.truncated <==> item.selected < item.available)
    && (item.available > 0 ==> item.selected > 0)
  }

  /** What every step of the selection keeps. */
  ghost predicate Within(c: Config, s: Selection) {
    && |s.items| <= c.maxItems && s.tokens <= c.maxTokens && CountKind(s.items, Recent) <= c.maxRecent
    && s.tokens == Selected(s.items)
    && s.tokens == (if Available(s.items) < c.maxTokens then Available(s.items) else c.maxTokens)
    && (forall i :: 0 <= i < |s.items| ==> WellCut(s.items[i]))
    && (forall i, j :: 0 <= i < j < |s.items| && s.items[i].truncated ==> s.items[j].available == 0)
    && (forall i :: 0 <= i < |s.items| && s.items[i].truncated ==> s.tokens == c.maxTokens && s.tokenLimit)
  }

  lemma TakeKeepsWithin(c: Config, s: Selection, item: Item)
    requires Within(c, s) && !SkipsRecent(c, s, item) && |s.items| < c.maxItems
    requires item.available > 0 ==> s.tokens < c.maxTokens
    requires item.selected == 0 && !item.truncated
    ensures Within(c, Take(c, s, item))
  {
    hide Selected, Available, CountKind, WellCut, Cut;
    var cut := Cut(item, c.maxTokens - s.tokens);
    CutFacts(item, c.maxTokens - s.tokens);
    SumsGrow(s.items, cut);
  }

  lemma CutFacts(item: Item, remaining: nat)
    requires item.selected == 0 && !item.truncated && (item.available > 0 ==> remaining > 0)
    ensures var cut := Cut(item, remaining);
      && WellCut(cut) && cut.kind == item.kind && cut.available == item.available
      && cut.selected == (if item.available < remaining then item.available else remaining)
      && (cut.truncated <==> item.available > remaining && item.available > 0)
  {
  }

  lemma SumsGrow(items: seq<Item>, item: Item)
    ensures Selected(items + [item]) == Selected(items) + item.selected
    ensures Available(items + [item]) == Available(items) + item.available
    ensures CountKind(items + [item], Recent) == CountKind(items, Recent) + (if item.kind == Recent then 1 else 0)
  {
    assert (items + [item])[..|items|] == items;
  }

  /**
   Every selection stays within its budgets: its token count is what its items use, which is all
   the text they have or else exactly the budget; one item at most is cut short, and no item with
   text follows it.
   */
  lemma {:induction false} ChooseStaysWithin(c: Config, rest: seq<Item>, s: Selection)
    requires Within(c, s) && Fresh(rest)
    ensures Within(c, Choose(c, rest, s))
    decreases |rest|
  {
    hide Within, Cut, Take;
    WithinBudget(c, s);
    if rest != [] {
      var item := rest[0];
      if SkipsRecent(c, s, item) {
        ChooseStaysWithin(c, rest[1..], s);
      } else if |s.items| >= c.maxItems {
        FlagsKeepWithin(c, s);
      } else if item.available > 0 && c.maxTokens == s.tokens {
        FlagsKeepWithin(c, s);
        ChooseStaysWithin(c, rest[1..], s.(tokenLimit := true));
      } else {
        TakeKeepsWithin(c, s, item);
        ChooseStaysWithin(c, rest[1..], Take(c, s, item));
      }
    }
  }

  lemma WithinBudget(c: Config, s: Selection)
    requires Within(c, s)
    ensures s.tokens <= c.maxTokens
  {
  }

  lemma FlagsKeepWithin(c: Config, s: Selection)
    requires Within(c, s)
    ensures Within(c, s.(itemLimit := true)) && Within(c, s.(tokenLimit := true))
  {
  }

  /** The same candidate, however much of it was selected. */
  predicate Same(a: Item, b: Item) {
    a.(selected := 0, truncated := false) == b.(selected := 0, truncated := false)
  }

  /** `items` can be found in `rest` in this order. */
  predicate Picked(items: seq<Item>, rest: seq<Item>) {
    items == [] || (rest != [] && ((Same(items[0], rest[0]) && Picked(items[1..], rest[1..])) || Picked(items, rest[1..])))
  }

  /** The selection adds to what is already selected, and what it adds is picked from the candidates in order. */
  lemma {:induction false} ChoosePicks(c: Config, rest: seq<Item>, s: Selection)
    requires s.tokens <= c.maxTokens
    ensures s.items <= Choose(c, rest, s).items
    ensures Picked(Choose(c, rest, s).items[|s.items|..], rest)
    decreases |rest|
  {
    if rest != [] {
      var item := rest[0];
      if SkipsRecent(c, s, item) {
        ChoosePicks(c, rest[1..], s);
      } else if |s.items| >= c.maxItems {
      } else if item.available > 0 && c.maxTokens == s.tokens {
        ChoosePicks(c, rest[1..], s.(tokenLimit := true));
      } else {
        var t := Take(c, s, item);
        ChoosePicks(c, rest[1..], t);
        var added := Choose(c, rest, s).items[|s.items|..];
        assert added[0] == Cut(item, c.maxTokens - s.tokens);
        assert added[1..] == Choose(c, rest[1..], t).items[|t.items|..];
      }
    }
  }

  /** What is picked keeps a count at most that of what it was picked from. */
  lemma {:induction false} PickedCount(items: seq<Item>, rest: seq<Item>, kind: Kind)
    requires Picked(items, rest)
    ensures CountKind(items, kind) <= CountKind(rest, kind)
    decreases |rest|
  {
    if items != [] {
      CountFirst(rest, kind);
      if Same(items[0], rest[0]) && Picked(items[1..], rest[1..]) {
        CountFirst(items, kind);
        PickedCount(items[1..], rest[1..], kind);
      } else {
        PickedCount(items, rest[1..], kind);
      }
    }
  }

  lemma {:induction false} CountFirst(items: seq<Item>, kind: Kind)
    requires items != []
    ensures CountKind(items, kind) == (if items[0].kind == kind then 1 else 0) + CountKind(items[1..], kind)
  {
    if |items| > 1 {
      var init := items[..|items| - 1];
      CountFirst(init, kind);
      assert items[1..][..|items| - 2] == init[1..];
    }
  }

  // ---------------------------------------------------------------- when nothing is dropped

  /** The candidates without the recents beyond the first `budget` of them. */
  function KeepRecents(rest: seq<Item>, budget: nat): seq<Item> {
    if rest == [] then []
    else if !rest[0].kind.Recent? then [rest[0]] + KeepRecents(rest[1..], budget)
    else if budget == 0 then KeepRecents(rest[1..], budget)
    else [rest[0]] + KeepRecents(rest[1..], budget - 1)
  }

  function Whole(items: seq<Item>): (r: seq<Item>)
    ensures |r| == |items|
  {
    if items == [] then [] else [items[0].(selected := items[0].available)] + Whole(items[1..])
  }

  function Demand(items: seq<Item>): nat {
    if items == [] then 0 else items[0].available + Demand(items[1..])
  }

  predicate Unflagged(s: Selection) {
    !s.itemLimit && !s.tokenLimit
  }

  lemma {:induction false} FlagsStay(c: Config, rest: seq<Item>, s: Selection)
    requires s.tokens <= c.maxTokens && !Unflagged(s)
    ensures !Unflagged(Choose(c, rest, s))
    decreases |rest|
  {
    if rest != [] {
      var item := rest[0];
      if SkipsRecent(c, s, item) {
        FlagsStay(c, rest[1..], s);
      } else if |s.items| >= c.maxItems {
      } else if item.available > 0 && c.maxTokens == s.tokens {
        FlagsStay(c, rest[1..], s.(tokenLimit := true));
      } else {
        FlagsStay(c, rest[1..], Take(c, s, item));
      }
    }
  }

  /** The recents that may still be selected. */
  function RecentsLeft(c: Config, s: Selection): nat {
    var count := CountKind(s.items, Recent);
    if count < c.maxRecent then c.maxRecent - count else 0
  }

  /** The whole of `kept` fits what is left of the item and token budgets. */
  predicate Fits(c: Config, s: Selection, kept: seq<Item>) {
    |s.items| + |kept| <= c.maxItems && s.tokens + Demand(kept) <= c.maxTokens
  }

  lemma KeepFirst(item: Item, rest: seq<Item>, budget: nat)
    ensures KeepRecents([item] + rest, budget) ==
            if !item.kind.Recent? then [item] + KeepRecents(rest, budget)
            else if budget == 0 then KeepRecents(rest, 0)
            else [item] + KeepRecents(rest, budget - 1)
  {
    assert ([item] + rest)[1..] == rest;
  }

  lemma WholeFirst(item: Item, kept: seq<Item>)
    ensures Whole([item] + kept) == [item.(selected := item.available)] + Whole(kept)
    ensures Demand([item] + kept) == item.available + Demand(kept)
  {
    assert ([item] + kept)[1..] == kept;
  }

  /**
   The limit flags are exact: neither is raised just when all candidates but the surplus recents fit
   the item and token budgets, and then those are selected whole and in order.
   */
  lemma {:induction false} FlagsAreExact(c: Config, rest: seq<Item>, s: Selection)
    requires s.tokens <= c.maxTokens && Unflagged(s) && Fresh(rest) && |s.items| <= c.maxItems
    ensures var kept, r := KeepRecents(rest, RecentsLeft(c, s)), Choose(c, rest, s);
      && (Unflagged(r) <==> Fits(c, s, kept))
      && (Unflagged(r) ==> r.items == s.items + Whole(kept))
    decreases |rest|
  {
    hide Take, Cut, Unflagged, KeepRecents, Demand, Whole, CountKind;
    if rest == [] {
      NothingKept(s, RecentsLeft(c, s));
    } else {
      var item, left := rest[0], RecentsLeft(c, s);
      assert rest == [item] + rest[1..];
      KeepFirst(item, rest[1..], left);
      if SkipsRecent(c, s, item) {
        FlagsAreExact(c, rest[1..], s);
      } else {
        var kept := KeepRecents(rest[1..], if item.kind.Recent? then left - 1 else left);
        WholeFirst(item, kept);
        Raised(s);
        if |s.items| < c.maxItems && item.available > 0 && c.maxTokens == s.tokens {
          FlagsStay(c, rest[1..], s.(tokenLimit := true));
        } else if |s.items| < c.maxItems {
          TakeFacts(c, s, item);
          TakeLeaves(c, s, item);
          var t := Take(c, s, item);
          if item.available <= c.maxTokens - s.tokens {
            FlagsAreExact(c, rest[1..], t);
            Sequences.Associate(s.items, [item.(selected := item.available)], Whole(kept));
          } else {
            FlagsStay(c, rest[1..], t);
          }
        }
      }
    }
  }

  lemma NothingKept(s: Selection, budget: nat)
    ensures KeepRecents([], budget) == [] && Demand([]) == 0 && s.items + Whole([]) == s.items
  {
  }

  lemma TakeLeaves(c: Config, s: Selection, item: Item)
    requires s.tokens <= c.maxTokens && !SkipsRecent(c, s, item)
    ensures RecentsLeft(c, Take(c, s, item)) == RecentsLeft(c, s) - (if item.kind.Recent? then 1 else 0)
  {
    assert (s.items + [Cut(item, c.maxTokens - s.tokens)])[..|s.items|] == s.items;
  }

  lemma Raised(s: Selection)
    ensures !Unflagged(s.(itemLimit := true)) && !Unflagged(s.(tokenLimit := true))
  {
  }

  lemma TakeFacts(c: Config, s: Selection, item: Item)
    requires s.tokens <= c.maxTokens && Unflagged(s) && item.selected == 0 && !item.truncated
    requires item.available > 0 ==> s.tokens < c.maxTokens
    ensures var t := Take(c, s, item);
      && |t.items| == |s.items| + 1 && t.tokens <= c.maxTokens
      && (Unflagged(t) <==> item.available <= c.maxTokens - s.tokens)
      && (Unflagged(t) ==> t.items == s.items + [item.(selected := item.available)] && t.tokens == s.tokens + item.available)
  {
    var t := Take(c, s, item);
    assert t.items[..|s.items|] == s.items;
  }
}
