/** The episodes a graph remembers, and the two ways to recall them by query. */
module EpisodicMemory {
  import opened Bytes
  import opened Options
  import opened Ranking
  import opened Recall
  import opened RecallLaws

  datatype Status = Ok | QueryFailed | OutOfMemory

  const SIZE_MAX: nat := 0xFFFF_FFFF_FFFF_FFFF

  /** The status of a recall; `query` is `None` when the query could not be resolved to nodes. */
  function StatusOf(count: nat, query: Option<seq<nat>>, limit: nat, capacity: nat, memory: bool): Status {
    if capacity == 0 || limit == 0 || count == 0 then Ok
    else if query.None? then QueryFailed
    else if query.value == [] then Ok
    else if memory then Ok
    else OutOfMemory
  }

  /** What a recall ranks: nothing unless it succeeds. */
  function Selected(
    g: Associations, query: Option<seq<nat>>, episodes: seq<Episode>, limit: nat, capacity: nat, atEpoch: u64, memory: bool)
    : (r: seq<Match>)
    ensures InRange(r, |episodes|) && NoRepeats(r) && |r| <= capacity
  {
    if query.None? || StatusOf(|episodes|, query, limit, capacity, memory) != Ok || query.value == [] then []
    else
      RecallIsTop(g, query.value, episodes, limit, capacity, atEpoch);
      Ranked(g, query.value, episodes, limit, capacity, atEpoch)
  }

  class Memory {
    const graph: Associations
    var episodes: seq<Episode>

    constructor (graph: Associations, episodes: seq<Episode>)
      ensures this.graph == graph && this.episodes == episodes
    {
      this.graph, this.episodes := graph, episodes;
    }

    /** The mutable form scans every episode, copies the best, and counts each copy it returns. */
    method RecallRanked(query: Option<seq<nat>>, atEpoch: u64, capacity: nat, memory: bool)
      returns (status: Status, out: seq<Recalled>)
      modifies this
      ensures status == StatusOf(old(|episodes|), query, SIZE_MAX, capacity, memory)
      ensures var r := Selected(graph, query, old(episodes), SIZE_MAX, capacity, atEpoch, memory);
        out == Copies(old(episodes), r) && episodes == Marked(old(episodes), r, atEpoch)
    {
      status, out := Run(true, query, atEpoch, SIZE_MAX, capacity, memory);
    }

    /** The preview scans a bounded tail and changes nothing. */
    method RecallPreview(query: Option<seq<nat>>, atEpoch: u64, limit: nat, capacity: nat, memory: bool)
      returns (status: Status, out: seq<Recalled>)
      ensures status == StatusOf(|episodes|, query, limit, capacity, memory)
      ensures out == Copies(episodes, Selected(graph, query, episodes, limit, capacity, atEpoch, memory))
    {
      status, out := Run(false, query, atEpoch, limit, capacity, memory);
    }

    method Run(counting: bool, query: Option<seq<nat>>, atEpoch: u64, limit: nat, capacity: nat, memory: bool)
      returns (status: Status, out: seq<Recalled>)
      modifies if counting then {this} else {}
      ensures status == StatusOf(old(|episodes|), query, limit, capacity, memory)
      ensures var r := Selected(graph, query, old(episodes), limit, capacity, atEpoch, memory);
        && out == Copies(old(episodes), r)
        && episodes == if counting then Marked(old(episodes), r, atEpoch) else old(episodes)
    {
      hide Matches, Top, EvidenceOf, Touch, NoRepeats;
      out := [];
      if capacity == 0 || limit == 0 || |episodes| == 0 {
        return Ok, [];
      }
      if query.None? {
        return QueryFailed, [];
      }
      if query.value == [] {
        return Ok, [];
      }
      if !memory {
        return OutOfMemory, [];
      }
      var matches := Collect(query.value, atEpoch, ScanStart(|episodes|, limit));
      var ranked := Top(matches, capacity);
      ghost var before := episodes;
      assert ranked == Selected(graph, query, before, limit, capacity, atEpoch, memory);
      for i := 0 to |ranked|
        invariant |episodes| == |before|
        invariant out == Copies(before, ranked[..i])
        invariant episodes == if counting then Marked(before, ranked[..i], atEpoch) else before
      {
        assert ranked[..i + 1][..i] == ranked[..i];
        var index := ranked[i].index;
        StillUntouched(before, ranked, i, atEpoch);
        out := out + [Recalled(episodes[index], ranked[i].evidence)];
        if counting {
          episodes := episodes[index := Touch(episodes[index], atEpoch)];
        }
      }
      assert ranked[..|ranked|] == ranked;
      status := Ok;
    }

    /** Score the tail of the memory and keep the eligible episodes. */
    method Collect(query: seq<nat>, atEpoch: u64, start: nat) returns (matches: seq<Match>)
      requires start <= |episodes|
      ensures matches == Matches(graph, query, episodes, start, atEpoch)
    {
      hide EvidenceOf, Eligible;
      matches := [];
      for i := start to |episodes|
        invariant matches + Matches(graph, query, episodes, i, atEpoch) == Matches(graph, query, episodes, start, atEpoch)
      {
        var e := ScoreEpisode(graph, query, episodes[i], atEpoch);
        if Eligible(e) {
          matches := matches + [Match(i, e, episodes[i].observedAt, episodes[i].ledgerId)];
        }
      }
    }
  }

  /** When a recall fails: the query cannot be resolved, or it names nodes and no memory is left for matches. */
  lemma FailsIff(count: nat, query: Option<seq<nat>>, limit: nat, capacity: nat, memory: bool)
    ensures StatusOf(count, query, limit, capacity, memory) == QueryFailed <==>
              capacity > 0 && limit > 0 && count > 0 && query == None
    ensures StatusOf(count, query, limit, capacity, memory) == OutOfMemory <==>
              capacity > 0 && limit > 0 && count > 0 && query.Some? && query.value != [] && !memory
  {
  }

  /** What the two entry points return is the same when the preview's limit covers the memory. */
  lemma PreviewAgrees(
    g: Associations, query: Option<seq<nat>>, episodes: seq<Episode>, limit: nat, capacity: nat, atEpoch: u64, memory: bool)
    requires |episodes| <= limit && |episodes| <= SIZE_MAX
    ensures StatusOf(|episodes|, query, limit, capacity, memory) == StatusOf(|episodes|, query, SIZE_MAX, capacity, memory)
    ensures Copies(episodes, Selected(g, query, episodes, limit, capacity, atEpoch, memory)) ==
            Copies(episodes, Selected(g, query, episodes, SIZE_MAX, capacity, atEpoch, memory))
  {
    hide Ranked, Copies, NoRepeats, InRange;
    if query.Some? {
      CoveringWindowsAgree(g, query.value, episodes, limit, SIZE_MAX, capacity, atEpoch);
      NoEpisodes(g, query.value, limit, capacity, atEpoch);
      NoEpisodes(g, query.value, SIZE_MAX, capacity, atEpoch);
    }
  }

  lemma NoEpisodes(g: Associations, query: seq<nat>, limit: nat, capacity: nat, atEpoch: u64)
    ensures Ranked(g, query, [], limit, capacity, atEpoch) == []
  {
  }

  /** A match not yet returned has its episode as it was before the call. */
  lemma StillUntouched(episodes: seq<Episode>, matches: seq<Match>, i: nat, atEpoch: u64)
    requires InRange(matches, |episodes|) && NoRepeats(matches) && i < |matches|
    ensures Marked(episodes, matches[..i], atEpoch)[matches[i].index] == episodes[matches[i].index]
  {
    hide Touch;
    MarkedAt(episodes, matches[..i], atEpoch, matches[i].index);
  }
}
