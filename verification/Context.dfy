/**
 Planner context: the immediate input, recalled memories, recent inputs and the familiarity of the
 author and the source compete for a bounded context.
 */
module Context {
  import opened Bytes
  import opened Options
  import opened Ranking
  import opened ContextItems
  import opened ContextBudget
  import R = Recall
  import L = RecallLaws
  import EM = EpisodicMemory

  const MAX_TEXT := 65536
  const MAX_IDENTIFIER := 256
  const MAX_RECENT := 32
  const CAPACITY := 1 + 32 + 8 + 2
  const NO_INDEX: nat := 0xFFFF_FFFF_FFFF_FFFF

  /** C strings are byte sequences without their terminator; an absent string is empty. */
  datatype Input = Input(text: seq<byte>, sourceId: seq<byte>, author: seq<byte>, observedAt: u64)

  datatype Request = Request(immediate: seq<byte>, sourceId: seq<byte>, author: seq<byte>, recent: seq<Input>, atEpoch: u64)

  predicate RequestValid(q: Request) {
    && |q.recent| <= MAX_RECENT && |q.immediate| <= MAX_TEXT
    && |q.sourceId| < MAX_IDENTIFIER && |q.author| < MAX_IDENTIFIER
    && forall i :: 0 <= i < |q.recent| ==>
         |q.recent[i].text| <= MAX_TEXT && |q.recent[i].sourceId| < MAX_IDENTIFIER && |q.recent[i].author| < MAX_IDENTIFIER
  }

  /** The neutral interaction state of one author or source, as the graph derives it. */
  datatype Lookup = Known(encounters: u64, lastSeen: u64) | Unknown | Failed

  /**
   What the selector asks of the rest of the core: the token count of a text, the nodes of a query,
   and interaction state.
   */
  datatype Core = Core(
    tokens: seq<byte> -> nat, nodes: seq<byte> -> Option<seq<nat>>,
    author: seq<byte> -> Lookup, source: seq<byte> -> Lookup, memory: bool)

  datatype Status = Ok | InvalidArgument | RecallFailed(status: EM.Status) | LookupFailed

  const DEFAULT := Config(12, 4, 4, 96, 256)

  const EMPTY := Selection([], 0, 0, 0, false, false, false)

  function Familiarity(encounters: u64): (familiarity: real)
    ensures 0.0 <= familiarity <= 1.0
  {
    R.Fraction(encounters as real);
    if encounters == 0 then 0.0
    else if encounters == R.U64_MAX then 1.0
    else encounters as real / (encounters as real + 1.0)
  }

  function CountTokens(core: Core, text: seq<byte>): nat {
    if text == [] then 0 else core.tokens(text)
  }

  // ---------------------------------------------------------------- candidates

  function ImmediateItem(core: Core, q: Request): Item {
    Item(Immediate, 1.0, 0, CountTokens(core, q.immediate), false, NO_INDEX, q.atEpoch, 0, q.sourceId, q.author)
  }

  function MemoryItem(r: R.Recalled): Item {
    Item(Memory, R.BoundedExposure(r.evidence.score), 0, |r.episode.summary|, false, NO_INDEX,
         r.episode.observedAt, r.episode.ledgerId, r.episode.sourceId, r.episode.author)
  }

  function RecentItem(core: Core, q: Request, i: nat): Item
    requires i < |q.recent|
  {
    Item(Recent, R.Recency(q.recent[i].observedAt, q.atEpoch), 0, CountTokens(core, q.recent[i].text), false, i,
         q.recent[i].observedAt, 0, q.recent[i].sourceId, q.recent[i].author)
  }

  function StateItem(kind: Kind, state: Lookup, sourceId: seq<byte>, author: seq<byte>): Item
    requires state.Known?
  {
    Item(kind, Familiarity(state.encounters), 0, 0, false, NO_INDEX, state.lastSeen, 0, sourceId, author)
  }

  function ImmediatePart(core: Core, q: Request): seq<Item> {
    if CountTokens(core, q.immediate) > 0 then [ImmediateItem(core, q)] else []
  }

  function MemoryPart(recalled: seq<R.Recalled>): seq<Item> {
    seq(|recalled|, i requires 0 <= i < |recalled| => MemoryItem(recalled[i]))
  }

  /** The recent inputs from an index on that have any token. */
  function RecentPart(core: Core, q: Request, from: nat): seq<Item>
    requires from <= |q.recent|
    decreases |q.recent| - from
  {
    if from == |q.recent| then []
    else
      (if CountTokens(core, q.recent[from].text) > 0 then [RecentItem(core, q, from)] else [])
      + RecentPart(core, q, from + 1)
  }

  function AuthorPart(core: Core, q: Request): seq<Item> {
    if q.author != [] && core.author(q.author).Known? then [StateItem(AuthorState, core.author(q.author), [], q.author)]
    else []
  }

  function SourcePart(core: Core, q: Request): seq<Item> {
    if q.sourceId != [] && core.source(q.sourceId).Known? then
      [StateItem(SourceState, core.source(q.sourceId), q.sourceId, [])]
    else []
  }

  predicate Recalls(c: Config, q: Request) {
    q.immediate != [] && c.maxMemory > 0 && c.maxScan > 0
  }

  function RecallStatus(core: Core, c: Config, q: Request, count: nat): EM.Status {
    if Recalls(c, q) then EM.StatusOf(count, core.nodes(q.immediate), c.maxScan, c.maxMemory, core.memory) else EM.Ok
  }

  function Remembered(core: Core, g: R.Associations, episodes: seq<R.Episode>, c: Config, q: Request): (r: seq<R.Match>)
    ensures R.InRange(r, |episodes|) && L.NoRepeats(r)
  {
    if Recalls(c, q) then
      EM.Selected(g, core.nodes(q.immediate), episodes, c.maxScan, c.maxMemory, q.atEpoch, core.memory)
    else []
  }

  function Candidates(core: Core, g: R.Associations, episodes: seq<R.Episode>, c: Config, q: Request): seq<Item> {
    ImmediatePart(core, q) + MemoryPart(R.Copies(episodes, Remembered(core, g, episodes, c, q)))
    + RecentPart(core, q, 0) + AuthorPart(core, q) + SourcePart(core, q)
  }

  // ---------------------------------------------------------------- the selection

  function StatusOf(core: Core, c: Config, q: Request, count: nat): Status {
    if !ConfigValid(c) || !RequestValid(q) then InvalidArgument
    else if RecallStatus(core, c, q, count) != EM.Ok then RecallFailed(RecallStatus(core, c, q, count))
    else if q.author != [] && core.author(q.author).Failed? then LookupFailed
    else if q.sourceId != [] && core.source(q.sourceId).Failed? then LookupFailed
    else Ok
  }

  /** The counters filled in before anything is selected. */
  function Header(c: Config, q: Request, count: nat, scored: bool): Selection {
    var scan := if count < c.maxScan then count else c.maxScan;
    var s := if Recalls(c, q) then EMPTY.(scanned := scan, scanTruncated := scan < count) else EMPTY;
    s.(recentScored := if scored then |q.recent| else 0)
  }

  function Outcome(core: Core, g: R.Associations, episodes: seq<R.Episode>, c: Config, q: Request): Selection {
    match StatusOf(core, c, q, |episodes|)
    case InvalidArgument => EMPTY
    case RecallFailed(_) => Header(c, q, |episodes|, false)
    case LookupFailed => Header(c, q, |episodes|, true)
    case Ok => Choose(c, Sort(Candidates(core, g, episodes, c, q), Ahead), Header(c, q, |episodes|, true))
  }

  // ---------------------------------------------------------------- the operation

  /** Select the context: gather the candidates, sort them, and fill the budgets in order. */
  method SelectContext(memory: EM.Memory, core: Core, config: Option<Config>, q: Request)
    returns (status: Status, out: Selection)
    ensures var c := if config.None? then DEFAULT else config.value;
      && status == StatusOf(core, c, q, |memory.episodes|)
      && out == Outcome(core, memory.graph, memory.episodes, c, q)
  {
    hide CountTokens, Choose, Ahead, RecallStatus, Remembered, MemoryPart, Recalls, RequestValid;
    var c := if config.None? then DEFAULT else config.value;
    if !ConfigValid(c) || !RequestValid(q) {
      return InvalidArgument, EMPTY;
    }
    var immediate := if CountTokens(core, q.immediate) > 0 then [ImmediateItem(core, q)] else [];
    out := EMPTY;
    if Recalls(c, q) {
      var scan := if |memory.episodes| < c.maxScan then |memory.episodes| else c.maxScan;
      out := out.(scanned := scan, scanTruncated := scan < |memory.episodes|);
    }
    var recallStatus, remembered := RecallMemories(memory, core, c, q);
    if recallStatus != EM.Ok {
      return RecallFailed(recallStatus), out;
    }
    var recents := ScoreRecents(core, q);
    out := out.(recentScored := |q.recent|);
    if q.author != [] && core.author(q.author).Failed? {
      return LookupFailed, out;
    }
    if q.sourceId != [] && core.source(q.sourceId).Failed? {
      return LookupFailed, out;
    }
    var candidates := immediate + remembered + recents + AuthorPart(core, q) + SourcePart(core, q);
    out := FillBudgets(c, Sort(candidates, Ahead), out);
    status := Ok;
  }

  /** Preview the memories the immediate input recalls; considering one never counts it as recalled. */
  method RecallMemories(memory: EM.Memory, core: Core, c: Config, q: Request)
    returns (status: EM.Status, items: seq<Item>)
    ensures status == RecallStatus(core, c, q, |memory.episodes|)
    ensures items == MemoryPart(R.Copies(memory.episodes, Remembered(core, memory.graph, memory.episodes, c, q)))
  {
    if !Recalls(c, q) {
      return EM.Ok, [];
    }
    hide EM.Selected, R.Copies, MemoryPart;
    var recalled;
    status, recalled := memory.RecallPreview(core.nodes(q.immediate), q.atEpoch, c.maxScan, c.maxMemory, core.memory);
    items := CopyRecalled(recalled);
  }

  method CopyRecalled(recalled: seq<R.Recalled>) returns (items: seq<Item>)
    ensures items == MemoryPart(recalled)
  {
    items := [];
    for i := 0 to |recalled|
      invariant items == MemoryPart(recalled[..i])
    {
      items := items + [MemoryItem(recalled[i])];
    }
    assert recalled[..|recalled|] == recalled;
  }

  /** Score the recent inputs, leaving out those without a token. */
  method ScoreRecents(core: Core, q: Request) returns (items: seq<Item>)
    ensures items == RecentPart(core, q, 0)
  {
    hide CountTokens;
    items := [];
    for i := 0 to |q.recent|
      invariant items + RecentPart(core, q, i) == RecentPart(core, q, 0)
    {
      if CountTokens(core, q.recent[i].text) > 0 {
        items := items + [RecentItem(core, q, i)];
      }
    }
  }

  /** Walk the ranked candidates, skipping recents beyond their limit before looking at any other budget. */
  method FillBudgets(c: Config, ranked: seq<Item>, header: Selection) returns (out: Selection)
    requires header.items == [] && header.tokens == 0
    ensures out == Choose(c, ranked, header)
  {
    hide Choose, Take, CountKind;
    out := header;
    var recentSelected := 0;
    NoneYet(c, header);
    assert ranked[0..] == ranked;
    for i := 0 to |ranked|
      invariant out.tokens <= c.maxTokens && recentSelected == CountKind(out.items, Recent)
      invariant Choose(c, ranked, header) == Choose(c, ranked[i..], out)
    {
      var item := ranked[i];
      ChooseNext(c, ranked, i, out);
      if item.kind == Recent && recentSelected >= c.maxRecent {
        continue;
      }
      if |out.items| >= c.maxItems {
        out := out.(itemLimit := true);
        return;
      }
      if item.available > 0 && c.maxTokens - out.tokens == 0 {
        out := out.(tokenLimit := true);
        continue;
      }
      TakeCounts(c, out, item);
      out := TakeItem(c, out, item);
      if item.kind == Recent {
        recentSelected := recentSelected + 1;
      }
    }
    NoneYet(c, out);
    assert ranked[|ranked|..] == [];
  }

  method TakeItem(c: Config, s: Selection, candidate: Item) returns (out: Selection)
    requires s.tokens <= c.maxTokens
    ensures out == Take(c, s, candidate)
  {
    out := s;
    var item := candidate;
    if item.available > 0 {
      var remaining := c.maxTokens - out.tokens;
      var selected := if item.available < remaining then item.available else remaining;
      item := item.(selected := selected, truncated := selected < item.available);
      if item.truncated {
        out := out.(tokenLimit := true);
      }
      out := out.(tokens := out.tokens + item.selected);
    }
    out := out.(items := out.items + [item]);
  }

  lemma NoneYet(c: Config, s: Selection)
    requires s.tokens <= c.maxTokens
    ensures Choose(c, [], s) == s
    ensures s.items == [] ==> CountKind(s.items, Recent) == 0
  {
  }

  lemma TakeCounts(c: Config, s: Selection, item: Item)
    requires s.tokens <= c.maxTokens
    ensures var t := Take(c, s, item);
      && t.tokens <= c.maxTokens
      && CountKind(t.items, Recent) == CountKind(s.items, Recent) + (if item.kind == Recent then 1 else 0)
  {
    var cut := Cut(item, c.maxTokens - s.tokens);
    SumsGrow(s.items, cut);
  }

  lemma ChooseNext(c: Config, ranked: seq<Item>, i: nat, s: Selection)
    requires i < |ranked| && s.tokens <= c.maxTokens
    ensures Choose(c, ranked[i..], s) ==
            if SkipsRecent(c, s, ranked[i]) then Choose(c, ranked[i + 1..], s)
            else if |s.items| >= c.maxItems then s.(itemLimit := true)
            else if ranked[i].available > 0 && c.maxTokens == s.tokens then
              Choose(c, ranked[i + 1..], s.(tokenLimit := true))
            else Choose(c, ranked[i + 1..], Take(c, s, ranked[i]))
  {
    assert ranked[i..][0] == ranked[i] && ranked[i..][1..] == ranked[i + 1..];
  }
}
