/**
 Replay as a fold: exactly when it succeeds, what it computes, and what follows for withdrawn
 entries, for prefixes of a ledger and for the report.
 */
module ReplayLaws {
  import opened NeuralLayout
  import opened NeuralRoles
  import opened NeuralExpansion
  import opened ReplaySpec
  import Sequences

  // ---------------------------------------------------------------- events

  datatype Event = Observe(e: Entry) | Mirror(e: Entry) | ExpandBy(m: Migration)

  /** The migrations bound to a boundary, in their order. */
  function At(ms: seq<Migration>, boundary: nat): seq<Event> {
    if ms == [] then [] else
      (if ms[0].boundary == boundary then [ExpandBy(ms[0])] else []) + At(ms[1..], boundary)
  }

  /** What one entry does to the learner: observe and mirror, mirror only, or nothing. */
  function Own(e: Entry): seq<Event> {
    match e.outcome
    case Learned => if e.payload == [] then [] else [Observe(e), Mirror(e)]
    case Skipped => [Mirror(e)]
    case _ => []
  }

  function EntryEvents(entries: seq<Entry>, ms: seq<Migration>): seq<Event> {
    if entries == [] then [] else Own(entries[0]) + At(ms, entries[0].id) + EntryEvents(entries[1..], ms)
  }

  /** The one list of events: boundary-0 expansions, then each entry's own events and its expansions. */
  function Events(entries: seq<Entry>, ms: seq<Migration>): seq<Event> {
    At(ms, 0) + EntryEvents(entries, ms)
  }

  function Apply<R>(core: Core<R>, ev: Event, l: Learner<R>): Attempt<R>
    requires Fits(l.net)
  {
    match ev
    case Observe(e) => core.observe(l, e)
    case Mirror(e) => core.mirror(l, e)
    case ExpandBy(m) => if CanExpand(l.net, m) then Done(l.(net := Expand(l.net, m))) else Refused(MigrationError)
  }

  ghost function Fold<R(!new)>(core: Core<R>, events: seq<Event>, l: Learner<R>): (a: Attempt<R>)
    requires KeepsTopology(core) && Fits(l.net)
    ensures a.Done? ==> Fits(a.learner.net)
    decreases |events|
  {
    if events == [] then Done(l) else
      var a := Apply(core, events[0], l);
      ApplyKeeps(core, events[0], l);
      if a.Refused? then a else Fold(core, events[1..], a.learner)
  }

  lemma ApplyKeeps<R(!new)>(core: Core<R>, ev: Event, l: Learner<R>)
    requires KeepsTopology(core) && Fits(l.net)
    ensures var a := Apply(core, ev, l);
            a.Done? ==> Fits(a.learner.net) && (!ev.ExpandBy? ==> a.learner.net.architecture == l.net.architecture &&
                                                                  a.learner.net.history == l.net.history)
  {
    hide Fits, Expand, CanExpand;
    match ev
    case Observe(e) => assert Kept(l, core.observe(l, e));
    case Mirror(e) => assert Kept(l, core.mirror(l, e));
    case ExpandBy(m) =>
  }

  lemma {:induction false} FoldJoin<R(!new)>(core: Core<R>, a: seq<Event>, b: seq<Event>, l: Learner<R>)
    requires KeepsTopology(core) && Fits(l.net)
    ensures Fold(core, a + b, l) == var x := Fold(core, a, l); if x.Refused? then x else Fold(core, b, x.learner)
    decreases |a|
  {
    hide Fits, Apply, KeepsTopology;
    if a == [] {
      assert a + b == b;
    } else {
      ApplyKeeps(core, a[0], l);
      assert (a + b)[1..] == a[1..] + b;
      if Apply(core, a[0], l).Done? {
        FoldJoin(core, a[1..], b, Apply(core, a[0], l).learner);
      }
    }
  }

  // ---------------------------------------------------------------- sorted migrations

  predicate Sorted(ms: seq<Migration>) {
    forall i, j :: 0 <= i <= j < |ms| ==> ms[i].boundary <= ms[j].boundary
  }

  lemma {:induction false} ChainIsSorted(ms: seq<Migration>, i: nat, j: nat)
    requires Chain(ms) && i <= j < |ms|
    ensures ms[i].boundary <= ms[j].boundary
    decreases j - i
  {
    hide ValidMigration;
    if i < j {
      ChainIsSorted(ms, i, j - 1);
    }
  }

  lemma {:induction false} AtAbsent(ms: seq<Migration>, boundary: nat)
    requires forall i :: 0 <= i < |ms| ==> ms[i].boundary != boundary
    ensures At(ms, boundary) == []
  {
    if ms != [] {
      AtAbsent(ms[1..], boundary);
    }
  }

  lemma {:induction false} AtJoin(a: seq<Migration>, b: seq<Migration>, boundary: nat)
    ensures At(a + b, boundary) == At(a, boundary) + At(b, boundary)
  {
    if a == [] {
      Sequences.EmptyJoin(b);
      Sequences.EmptyJoin(At(b, boundary));
    } else {
      AtJoin(a[1..], b, boundary);
      Sequences.TailOfJoin(a, b);
      Sequences.Associate(if a[0].boundary == boundary then [ExpandBy(a[0])] else [],
                          At(a[1..], boundary), At(b, boundary));
    }
  }

  /** Dropping migrations bound elsewhere changes nothing at a boundary. */
  lemma AtDrop(ms: seq<Migration>, k: nat, boundary: nat)
    requires k <= |ms| && forall i :: 0 <= i < k ==> ms[i].boundary != boundary
    ensures At(ms, boundary) == At(ms[k..], boundary)
  {
    AtJoin(ms[..k], ms[k..], boundary);
    assert ms == ms[..k] + ms[k..];
    AtAbsent(ms[..k], boundary);
  }

  lemma {:induction false} EntryEventsDrop(entries: seq<Entry>, ms: seq<Migration>, k: nat)
    requires k <= |ms| && forall i, j :: 0 <= i < k && 0 <= j < |entries| ==> ms[i].boundary != entries[j].id
    ensures EntryEvents(entries, ms) == EntryEvents(entries, ms[k..])
    decreases |entries|
  {
    hide At, Own;
    if entries != [] {
      AtDrop(ms, k, entries[0].id);
      EntryEventsDrop(entries[1..], ms, k);
    }
  }

  /** How many migrations at the front carry the boundary. */
  function Leading(ms: seq<Migration>, boundary: nat): (k: nat)
    ensures k <= |ms|
    ensures forall i :: 0 <= i < k ==> ms[i].boundary == boundary
    ensures k < |ms| ==> ms[k].boundary != boundary
  {
    if ms == [] || ms[0].boundary != boundary then 0 else 1 + Leading(ms[1..], boundary)
  }

  /** In a sorted history that has reached a boundary, those bound to it are exactly those at its front. */
  lemma {:induction false} AtIsLeading(ms: seq<Migration>, boundary: nat)
    requires Sorted(ms) && (ms != [] ==> boundary <= ms[0].boundary)
    ensures forall i :: Leading(ms, boundary) <= i < |ms| ==> ms[i].boundary > boundary
    ensures |At(ms, boundary)| == Leading(ms, boundary)
  {
    if ms != [] && ms[0].boundary == boundary {
      AtIsLeading(ms[1..], boundary);
      assert forall i :: 1 <= i < |ms| ==> ms[i] == ms[1..][i - 1];
    } else {
      AtAbsent(ms, boundary);
    }
  }

  /** The merging loop's inner step is the fold over the expansions at the boundary. */
  lemma {:induction false} ApplyMigrationsIsFold<R(!new)>(core: Core<R>, l: Learner<R>, ms: seq<Migration>,
                                                          boundary: nat, report: Report)
    requires KeepsTopology(core) && Fits(l.net) && Sorted(ms) && (ms != [] ==> boundary <= ms[0].boundary)
    ensures var (r, left) := ApplyMigrations(l, ms, boundary, report);
            var f := Fold(core, At(ms, boundary), l);
            && (r.status == Ok <==> f.Done?)
            && (r.status == Ok ==>
                 && r.learner == f.learner && Fits(f.learner.net)
                 && left == ms[Leading(ms, boundary)..]
                 && r.report == report.(migrations := report.migrations + Leading(ms, boundary)))
    decreases |ms|
  {
    hide Fits, CanExpand, Expand, KeepsTopology;
    if ms != [] && ms[0].boundary == boundary {
      assert At(ms, boundary)[0] == ExpandBy(ms[0]) && At(ms, boundary)[1..] == At(ms[1..], boundary);
      if CanExpand(l.net, ms[0]) {
        ApplyKeeps(core, ExpandBy(ms[0]), l);
        ApplyMigrationsIsFold(core, l.(net := Expand(l.net, ms[0])), ms[1..], boundary,
                              report.(migrations := report.migrations + 1));
      }
    } else {
      AtIsLeading(ms, boundary);
    }
  }

  // ---------------------------------------------------------------- the loop is the fold

  /** The entry passes the checks made before its outcome. */
  predicate Admitted(e: Entry) {
    e.readable && SchemaCanReplay(e.schema) && e.contextOk
  }

  /** The outcome is one the loop knows, and a learned entry has its payload or was released. */
  predicate Sourced(e: Entry) {
    && !e.outcome.Unknown?
    && (e.outcome.Learned? ==> e.probeOk && if e.payload == [] then e.released else e.payloadOk)
  }

  predicate AllReplayable(entries: seq<Entry>) {
    forall i :: 0 <= i < |entries| ==> Admitted(entries[i]) && Sourced(entries[i])
  }

  predicate HasId(entries: seq<Entry>, id: nat) {
    exists j :: 0 <= j < |entries| && entries[j].id == id
  }

  /** Every migration is bound to an entry of the ledger. */
  predicate Placed(entries: seq<Entry>, ms: seq<Migration>) {
    forall i :: 0 <= i < |ms| ==> HasId(entries, ms[i].boundary)
  }

  function Counted(r: Report): nat {
    r.replayed + r.mirrored + r.pending + r.failed + r.withdrawn + r.released
  }

  lemma ApplyEntryIsFold<R(!new)>(core: Core<R>, e: Entry, l: Learner<R>, report: Report)
    requires KeepsTopology(core) && Fits(l.net)
    ensures var r, f := ApplyEntry(core, e, l, report), Fold(core, Own(e), l);
            && (r.status == Ok <==> Sourced(e) && f.Done?)
            && (r.status == Ok ==> r.learner == f.learner && Counted(r.report) == Counted(report) + 1 &&
                                   r.report.migrations == report.migrations)
  {
    hide Fits;
    assert Kept(l, core.observe(l, e)) && Kept(l, core.mirror(l, e));
    if core.observe(l, e).Done? {
      var l' := core.observe(l, e).learner;
      assert Kept(l', core.mirror(l', e));
      FoldTwo(core, e, l);
    }
    if e.outcome.Skipped? {
      FoldOne(core, Mirror(e), l);
    }
  }

  lemma FoldOne<R(!new)>(core: Core<R>, ev: Event, l: Learner<R>)
    requires KeepsTopology(core) && Fits(l.net)
    ensures Fold(core, [ev], l) == Apply(core, ev, l)
  {
    hide Fits, Apply;
    ApplyKeeps(core, ev, l);
    if Apply(core, ev, l).Done? {
      assert [ev][1..] == [];
    }
  }

  lemma FoldTwo<R(!new)>(core: Core<R>, e: Entry, l: Learner<R>)
    requires KeepsTopology(core) && Fits(l.net) && core.observe(l, e).Done?
    ensures Fits(core.observe(l, e).learner.net)
    ensures Fold(core, [Observe(e), Mirror(e)], l) == core.mirror(core.observe(l, e).learner, e)
  {
    hide Fits;
    ApplyKeeps(core, Observe(e), l);
    var l' := core.observe(l, e).learner;
    assert [Observe(e), Mirror(e)] == [Observe(e)] + [Mirror(e)];
    FoldJoin(core, [Observe(e)], [Mirror(e)], l);
    FoldOne(core, Observe(e), l);
    FoldOne(core, Mirror(e), l');
  }

  /** Once the first entry's migrations are taken, the rest must be placed on the rest. */
  lemma PlacedStep(entries: seq<Entry>, ms: seq<Migration>, k: nat)
    requires entries != [] && k <= |ms|
    requires forall i :: 0 <= i < k ==> ms[i].boundary == entries[0].id
    requires forall i :: k <= i < |ms| ==> ms[i].boundary > entries[0].id
    ensures Placed(entries, ms) <==> Placed(entries[1..], ms[k..])
  {
    var rest := entries[1..];
    if Placed(entries, ms) {
      forall i | 0 <= i < |ms[k..]|
        ensures HasId(rest, ms[k..][i].boundary)
      {
        assert HasId(entries, ms[k + i].boundary);
        var j :| 0 <= j < |entries| && entries[j].id == ms[k + i].boundary;
        assert rest[j - 1] == entries[j];
      }
    }
    if Placed(rest, ms[k..]) {
      forall i | 0 <= i < |ms|
        ensures HasId(entries, ms[i].boundary)
      {
        if i < k {
          assert entries[0].id == ms[i].boundary;
        } else {
          assert ms[k..][i - k] == ms[i];
          assert HasId(rest, ms[k..][i - k].boundary);
          var j :| 0 <= j < |rest| && rest[j].id == ms[i].boundary;
          assert entries[j + 1] == rest[j];
        }
      }
    }
  }

  lemma ReplayableStep(entries: seq<Entry>)
    requires entries != []
    ensures AllReplayable(entries) <==> Admitted(entries[0]) && Sourced(entries[0]) && AllReplayable(entries[1..])
  {
    hide Admitted, Sourced;
    assert forall i :: 0 < i < |entries| ==> entries[i] == entries[1..][i - 1];
  }

  predicate Beyond(entries: seq<Entry>, ms: seq<Migration>, passed: nat) {
    && Ordered(entries) && Sorted(ms)
    && (forall i :: 0 <= i < |entries| ==> entries[i].id > passed)
    && (forall i :: 0 <= i < |ms| ==> ms[i].boundary > passed)
  }

  lemma BeyondTail(entries: seq<Entry>, ms: seq<Migration>, passed: nat, k: nat)
    requires Beyond(entries, ms, passed) && entries != [] && k <= |ms|
    requires forall i :: k <= i < |ms| ==> ms[i].boundary > entries[0].id
    ensures Beyond(entries[1..], ms[k..], entries[0].id)
  {
  }

  lemma BeyondStep(entries: seq<Entry>, ms: seq<Migration>, passed: nat)
    requires Beyond(entries, ms, passed) && entries != [] && (ms != [] ==> entries[0].id <= ms[0].boundary)
    ensures var k := Leading(ms, entries[0].id);
            && Beyond(entries[1..], ms[k..], entries[0].id)
            && (forall i :: k <= i < |ms| ==> ms[i].boundary > entries[0].id)
            && EntryEvents(entries, ms) ==
               Own(entries[0]) + (At(ms, entries[0].id) + EntryEvents(entries[1..], ms[k..]))
  {
    hide At, Own, Leading;
    var k := Leading(ms, entries[0].id);
    AtIsLeading(ms, entries[0].id);
    BeyondTail(entries, ms, passed, k);
    EntryEventsSplit(entries, ms, k);
  }

  lemma EntryEventsSplit(entries: seq<Entry>, ms: seq<Migration>, k: nat)
    requires entries != [] && Ordered(entries) && k <= |ms|
    requires forall i :: 0 <= i < k ==> ms[i].boundary == entries[0].id
    ensures EntryEvents(entries, ms) ==
            Own(entries[0]) + (At(ms, entries[0].id) + EntryEvents(entries[1..], ms[k..]))
  {
    hide At, Own;
    EntryEventsDrop(entries[1..], ms, k);
  }

  /** A migration that the ledger has already passed by can never be placed. */
  lemma PassedByIsNotPlaced(entries: seq<Entry>, ms: seq<Migration>, passed: nat)
    requires Beyond(entries, ms, passed) && entries != [] && ms != [] && ms[0].boundary < entries[0].id
    ensures !Placed(entries, ms)
  {
    forall j | 0 <= j < |entries|
      ensures entries[j].id != ms[0].boundary
    {
    }
    assert !HasId(entries, ms[0].boundary);
  }

  /** The loop, from any point of the ledger, succeeds exactly when nothing is amiss, and is then the fold. */
  lemma {:induction false} LoopIsFold<R(!new)>(core: Core<R>, entries: seq<Entry>, position: nat, ms: seq<Migration>,
                                               l: Learner<R>, report: Report, passed: nat)
    requires KeepsTopology(core) && Fits(l.net) && Beyond(entries, ms, passed)
    ensures var r, f := Loop(core, entries, position, ms, l, report), Fold(core, EntryEvents(entries, ms), l);
            && (r.status == Ok <==> AllReplayable(entries) && Placed(entries, ms) && f.Done?)
            && (r.status == Ok ==>
                 && r.learner == f.learner
                 && Counted(r.report) == Counted(report) + |entries|
                 && r.report.migrations == report.migrations + |ms|)
    decreases |entries|
  {
    hide Fits, KeepsTopology, ApplyEntry, ApplyMigrations, Admitted, Sourced, Placed, AllReplayable, At, Own, Counted, Beyond;
    hide EntryEvents, Leading, Precheck, Sorted;
    if entries == [] {
      EmptyLedger(entries, ms);
    } else {
      var e := entries[0];
      ReplayableStep(entries);
      PrecheckIff(entries, position, ms, report, passed);
      if Precheck(e, position, ms, report).0 == Ok {
        var k := Leading(ms, e.id);
        BeyondStep(entries, ms, passed);
        BeyondIsSorted(entries, ms, passed);
        PlacedStep(entries, ms, k);
        var own, bound, rest := Own(e), At(ms, e.id), EntryEvents(entries[1..], ms[k..]);
        FoldJoin(core, own, bound + rest, l);
        ApplyEntryIsFold(core, e, l, report);
        ApplyEntryKeeps(core, e, l, report);
        var applied := ApplyEntry(core, e, l, report);
        if applied.status == Ok {
          FoldJoin(core, bound, rest, applied.learner);
          ApplyMigrationsIsFold(core, applied.learner, ms, e.id, applied.report);
          ApplyMigrationsKeeps(applied.learner, ms, e.id, applied.report);
          var (migrated, left) := ApplyMigrations(applied.learner, ms, e.id, applied.report);
          if migrated.status == Ok {
            LoopIsFold(core, entries[1..], position + 1, left, migrated.learner, migrated.report, e.id);
            CountedIgnoresMigrations(applied.report, k);
          }
        }
      }
    }
  }

  lemma CountedIgnoresMigrations(r: Report, k: nat)
    ensures Counted(r.(migrations := r.migrations + k)) == Counted(r)
  {
  }

  lemma EmptyLedger(entries: seq<Entry>, ms: seq<Migration>)
    requires entries == []
    ensures AllReplayable(entries) && (Placed(entries, ms) <==> ms == []) && EntryEvents(entries, ms) == []
  {
    if ms != [] {
      assert !HasId(entries, ms[0].boundary);
    }
  }

  lemma BeyondIsSorted(entries: seq<Entry>, ms: seq<Migration>, passed: nat)
    requires Beyond(entries, ms, passed)
    ensures Sorted(ms)
  {
  }

  lemma PrecheckIff(entries: seq<Entry>, position: nat, ms: seq<Migration>, report: Report, passed: nat)
    requires entries != [] && Beyond(entries, ms, passed)
    ensures var (status, checked) := Precheck(entries[0], position, ms, report);
            && (status == Ok <==> Admitted(entries[0]) && (ms != [] ==> entries[0].id <= ms[0].boundary))
            && (status == Ok ==> checked == report)
            && (ms != [] && ms[0].boundary < entries[0].id ==> !Placed(entries, ms))
  {
    if ms != [] && ms[0].boundary < entries[0].id {
      PassedByIsNotPlaced(entries, ms, passed);
    }
  }

  // ---------------------------------------------------------------- the whole replay

  /** Every migration is bound to the start or to an entry of the ledger. */
  predicate Bound(entries: seq<Entry>, ms: seq<Migration>) {
    forall i :: 0 <= i < |ms| ==> ms[i].boundary == 0 || HasId(entries, ms[i].boundary)
  }

  lemma BoundSplits(entries: seq<Entry>, ms: seq<Migration>)
    requires Ordered(entries) && Sorted(ms)
    ensures var k := Leading(ms, 0);
            && Beyond(entries, ms[k..], 0)
            && (Bound(entries, ms) <==> Placed(entries, ms[k..]))
            && EntryEvents(entries, ms) == EntryEvents(entries, ms[k..])
  {
    hide Leading, At, EntryEvents, HasId;
    var k := Leading(ms, 0);
    AtIsLeading(ms, 0);
    EntryEventsDrop(entries, ms, k);
    if Placed(entries, ms[k..]) {
      forall i | 0 <= i < |ms|
        ensures ms[i].boundary == 0 || HasId(entries, ms[i].boundary)
      {
        if i >= k {
          assert ms[k..][i - k] == ms[i];
        }
      }
    }
  }

  lemma BoundPassesValidation(entries: seq<Entry>, a: Architecture, ms: seq<Migration>)
    requires Ordered(entries) && ChainFrom(a, ms) && Bound(entries, ms) && AllReplayable(entries)
    ensures ValidateMigrations(entries, a, ms).0 == Ok
  {
    hide ValidateMigrations, Chain, Sourced, SchemaCanReplay;
    ValidationIff(entries, a, ms);
    if ms != [] {
      var last := ms[|ms| - 1].boundary;
      if last != 0 {
        assert HasId(entries, last);
        var j :| 0 <= j < |entries| && entries[j].id == last;
      }
    }
  }

  /**
   A replay succeeds exactly when the migration chain starts at the graph's architecture and is
   coherent, every boundary is the start or an entry of the ledger, every entry can be replayed
   and no event of the fold is refused. It then leaves exactly what the fold leaves, and the
   report accounts for every entry and every migration once.
   */
  lemma ReplayIsFold<R(!new)>(core: Core<R>, entries: seq<Entry>, ms: seq<Migration>, l: Learner<R>)
    requires KeepsTopology(core) && Fits(l.net) && Ordered(entries)
    ensures var r, f := Replay(core, entries, ms, l), Fold(core, Events(entries, ms), l);
            && (r.status == Ok <==>
                 ChainFrom(l.net.architecture, ms) && Bound(entries, ms) && AllReplayable(entries) && f.Done?)
            && (r.status == Ok ==>
                 r.learner == f.learner && Counted(r.report) == |entries| && r.report.migrations == |ms|)
  {
    hide Fits, KeepsTopology, ApplyMigrations, AllReplayable, Bound, At, EntryEvents, Loop, Counted, Leading, Beyond,
         ChainFrom, ValidateMigrations, Ordered;
    var a := l.net.architecture;
    ValidationIff(entries, a, ms);
    if ChainFrom(a, ms) && Bound(entries, ms) && AllReplayable(entries) {
      BoundPassesValidation(entries, a, ms);
    }
    if ValidateMigrations(entries, a, ms).0 == Ok {
      ChainFromIsSorted(a, ms);
      BoundSplits(entries, ms);
      var k := Leading(ms, 0);
      FoldJoin(core, At(ms, 0), EntryEvents(entries, ms), l);
      ApplyMigrationsIsFold(core, l, ms, 0, EMPTY_REPORT);
      ApplyMigrationsKeeps(l, ms, 0, EMPTY_REPORT);
      var (migrated, left) := ApplyMigrations(l, ms, 0, EMPTY_REPORT);
      if migrated.status == Ok {
        LoopIsFold(core, entries, 0, left, migrated.learner, migrated.report, 0);
        CountedIgnoresMigrations(EMPTY_REPORT, k);
        CountedEmpty();
      }
    }
  }

  lemma CountedEmpty()
    ensures Counted(EMPTY_REPORT) == 0
  {
  }

  lemma ChainFromIsSorted(a: Architecture, ms: seq<Migration>)
    requires ChainFrom(a, ms)
    ensures Sorted(ms)
  {
    hide ValidMigration;
    forall i, j | 0 <= i <= j < |ms|
      ensures ms[i].boundary <= ms[j].boundary
    {
      ChainIsSorted(ms, i, j);
    }
  }

  // ---------------------------------------------------------------- every migration once, in order, in place

  function Expansions(events: seq<Event>): seq<Migration> {
    if events == [] then [] else
      (if events[0].ExpandBy? then [events[0].m] else []) + Expansions(events[1..])
  }

  lemma {:induction false} ExpansionsJoin(a: seq<Event>, b: seq<Event>)
    ensures Expansions(a + b) == Expansions(a) + Expansions(b)
  {
    if a == [] {
      Sequences.EmptyJoin(b);
      Sequences.EmptyJoin(Expansions(b));
    } else {
      ExpansionsJoin(a[1..], b);
      Sequences.TailOfJoin(a, b);
      Sequences.Associate(if a[0].ExpandBy? then [a[0].m] else [], Expansions(a[1..]), Expansions(b));
    }
  }

  lemma {:induction false} ExpansionsAt(ms: seq<Migration>, boundary: nat)
    requires Sorted(ms) && (ms != [] ==> boundary <= ms[0].boundary)
    ensures Expansions(At(ms, boundary)) == ms[..Leading(ms, boundary)]
  {
    if ms != [] && ms[0].boundary == boundary {
      ExpansionsAt(ms[1..], boundary);
      assert At(ms, boundary)[1..] == At(ms[1..], boundary);
      var k := Leading(ms[1..], boundary);
      assert ms[..k + 1] == [ms[0]] + ms[1..][..k];
    } else {
      AtIsLeading(ms, boundary);
    }
  }

  lemma OwnExpandsNothing(e: Entry)
    ensures Expansions(Own(e)) == []
  {
    var one, two := [Mirror(e)], [Observe(e), Mirror(e)];
    assert one[1..] == [] && two == [Observe(e)] + one;
    ExpansionsJoin([Observe(e)], one);
  }

  lemma {:induction false} ExpansionsInOrder(entries: seq<Entry>, ms: seq<Migration>, passed: nat)
    requires Beyond(entries, ms, passed) && Placed(entries, ms)
    ensures Expansions(EntryEvents(entries, ms)) == ms
    decreases |entries|
  {
    hide At, Own, Leading, Placed, Beyond;
    if entries == [] {
      EmptyLedger(entries, ms);
    } else {
      if ms != [] && ms[0].boundary < entries[0].id {
        PassedByIsNotPlaced(entries, ms, passed);
        assert false;
      }
      var e, k := entries[0], Leading(ms, entries[0].id);
      BeyondIsSorted(entries, ms, passed);
      BeyondStep(entries, ms, passed);
      PlacedStep(entries, ms, k);
      ExpansionsInOrder(entries[1..], ms[k..], e.id);
      var rest := EntryEvents(entries[1..], ms[k..]);
      ExpansionsJoin(Own(e), At(ms, e.id) + rest);
      ExpansionsJoin(At(ms, e.id), rest);
      OwnExpandsNothing(e);
      ExpansionsAt(ms, e.id);
      assert ms == ms[..k] + ms[k..];
    }
  }

  /** The event list expands by each migration exactly once, in history order. */
  lemma EveryMigrationOnce(entries: seq<Entry>, ms: seq<Migration>)
    requires Ordered(entries) && Sorted(ms) && Bound(entries, ms)
    ensures Expansions(Events(entries, ms)) == ms
  {
    hide At, EntryEvents, Leading, Bound, Beyond;
    BoundSplits(entries, ms);
    var k := Leading(ms, 0);
    ExpansionsInOrder(entries, ms[k..], 0);
    ExpansionsAt(ms, 0);
    ExpansionsJoin(At(ms, 0), EntryEvents(entries, ms));
    assert ms == ms[..k] + ms[k..];
  }

  /** The chain continues the graph's own recorded history. */
  predicate Continues(net: GraphValue, ms: seq<Migration>) {
    ms != [] && net.history != [] ==> net.history[|net.history| - 1].boundary <= ms[0].boundary
  }

  datatype Verdict = Accepted | RefusedBy(ev: Event)

  /** The first event that is refused, if any. */
  ghost function FirstRefusal<R(!new)>(core: Core<R>, events: seq<Event>, l: Learner<R>): Verdict
    requires KeepsTopology(core) && Fits(l.net)
    decreases |events|
  {
    if events == [] then Accepted else
      var a := Apply(core, events[0], l);
      ApplyKeeps(core, events[0], l);
      if a.Refused? then RefusedBy(events[0]) else FirstRefusal(core, events[1..], a.learner)
  }

  lemma {:induction false} FoldDoneIff<R(!new)>(core: Core<R>, events: seq<Event>, l: Learner<R>)
    requires KeepsTopology(core) && Fits(l.net)
    ensures Fold(core, events, l).Done? <==> FirstRefusal(core, events, l).Accepted?
    decreases |events|
  {
    hide Fits, Apply, KeepsTopology;
    if events != [] {
      ApplyKeeps(core, events[0], l);
      if Apply(core, events[0], l).Done? {
        FoldDoneIff(core, events[1..], Apply(core, events[0], l).learner);
      }
    }
  }

  lemma FirstEvent<R(!new)>(core: Core<R>, events: seq<Event>, l: Learner<R>)
    requires KeepsTopology(core) && Fits(l.net) && events != []
    ensures var a := Apply(core, events[0], l);
            && (a.Done? ==> Fits(a.learner.net) && FirstRefusal(core, events, l) == FirstRefusal(core, events[1..], a.learner)
                                              && Fold(core, events, l) == Fold(core, events[1..], a.learner))
            && (a.Refused? ==> FirstRefusal(core, events, l) == RefusedBy(events[0]) && Fold(core, events, l) == a)
  {
    hide Fits, KeepsTopology, Apply;
    ApplyKeeps(core, events[0], l);
  }

  lemma ChainHead(net: GraphValue, ms: seq<Migration>)
    requires Fits(net) && ms != [] && ChainFrom(net.architecture, ms) && Continues(net, ms)
    ensures CanExpand(net, ms[0])
    ensures var net' := Expand(net, ms[0]);
            && ChainFrom(net'.architecture, ms[1..]) && Continues(net', ms[1..])
            && net'.history == net.history + [ms[0]] && net'.architecture == ms[0].target
  {
    hide Fits, ValidMigration, ExpandParams, ExpandVectors;
    ChainSplits(ms);
  }

  /** No expansion refused, and a completed fold has appended the chain to the history. */
  ghost predicate Smooth<R(!new)>(core: Core<R>, events: seq<Event>, l: Learner<R>, ms: seq<Migration>)
    requires KeepsTopology(core) && Fits(l.net)
  {
    var v, f := FirstRefusal(core, events, l), Fold(core, events, l);
    && (v.Accepted? || !v.ev.ExpandBy?)
    && (f.Done? ==>
         && f.learner.net.history == l.net.history + ms
         && f.learner.net.architecture == if ms == [] then l.net.architecture else ms[|ms| - 1].target)
  }

  lemma SmoothExpansion<R(!new)>(core: Core<R>, events: seq<Event>, l: Learner<R>, ms: seq<Migration>)
    requires KeepsTopology(core) && Fits(l.net) && events != [] && ms != [] && events[0] == ExpandBy(ms[0])
    requires CanExpand(l.net, ms[0]) && Smooth(core, events[1..], l.(net := Expand(l.net, ms[0])), ms[1..])
    ensures Smooth(core, events, l, ms)
  {
    hide Fits, KeepsTopology, ValidMigration, ExpandParams, ExpandVectors, Fold, FirstRefusal;
    FirstEvent(core, events, l);
    assert l.net.history + ms == (l.net.history + [ms[0]]) + ms[1..];
  }

  lemma SmoothLearning<R(!new)>(core: Core<R>, events: seq<Event>, l: Learner<R>, ms: seq<Migration>)
    requires KeepsTopology(core) && Fits(l.net) && events != [] && !events[0].ExpandBy?
    requires Apply(core, events[0], l).Done? ==>
               (ApplyKeeps(core, events[0], l); Smooth(core, events[1..], Apply(core, events[0], l).learner, ms))
    ensures Smooth(core, events, l, ms)
  {
    hide Fits, KeepsTopology, Apply, Fold, FirstRefusal;
    ApplyKeeps(core, events[0], l);
    FirstEvent(core, events, l);
  }

  /**
   A coherent chain that starts at the graph's architecture and continues its history is never
   refused by an expansion, wherever observations come between; and when the fold completes, the
   history has grown by exactly the chain.
   */
  lemma {:induction false} ExpansionsNeverRefuse<R(!new)>(core: Core<R>, events: seq<Event>, l: Learner<R>)
    requires KeepsTopology(core) && Fits(l.net)
    requires ChainFrom(l.net.architecture, Expansions(events)) && Continues(l.net, Expansions(events))
    ensures Smooth(core, events, l, Expansions(events))
    decreases |events|
  {
    hide Fits, KeepsTopology, CanExpand, Expand, ChainFrom, Continues, Smooth, Apply;
    var ms := Expansions(events);
    if events == [] {
      NoEvents(core, events, l);
    } else if events[0].ExpandBy? {
      assert ms[0] == events[0].m && ms[1..] == Expansions(events[1..]);
      ChainHead(l.net, ms);
      ExpansionsNeverRefuse(core, events[1..], l.(net := Expand(l.net, ms[0])));
      SmoothExpansion(core, events, l, ms);
    } else {
      assert ms == Expansions(events[1..]);
      ApplyKeeps(core, events[0], l);
      if Apply(core, events[0], l).Done? {
        var l' := Apply(core, events[0], l).learner;
        SameChain(l.net, l'.net, ms);
        ExpansionsNeverRefuse(core, events[1..], l');
      }
      SmoothLearning(core, events, l, ms);
    }
  }

  lemma NoEvents<R(!new)>(core: Core<R>, events: seq<Event>, l: Learner<R>)
    requires KeepsTopology(core) && Fits(l.net) && events == []
    ensures Smooth(core, events, l, Expansions(events))
  {
    assert l.net.history + [] == l.net.history;
  }

  lemma SameChain(a: GraphValue, b: GraphValue, ms: seq<Migration>)
    requires a.history == b.history && Continues(a, ms)
    ensures Continues(b, ms)
  {
  }

  /** A fold that completes had a history it could continue. */
  lemma {:induction false} DoneContinues<R(!new)>(core: Core<R>, events: seq<Event>, l: Learner<R>)
    requires KeepsTopology(core) && Fits(l.net) && Fold(core, events, l).Done?
    ensures Continues(l.net, Expansions(events))
    decreases |events|
  {
    hide Fits, KeepsTopology, ValidMigration, Expand;
    if events != [] && !events[0].ExpandBy? {
      ApplyKeeps(core, events[0], l);
      DoneContinues(core, events[1..], Apply(core, events[0], l).learner);
    }
  }

  /**
   Replay succeeds if and only if: the first source is the graph's architecture and the chain is
   coherent; the chain does not go back before the graph's own history; every boundary is 0 or an
   entry's id; every entry is readable, of a replayable schema, with its context, and with a
   payload or a release if it was learned; and the core refuses no observation or mirroring.
   */
  lemma ReplaySucceedsIff<R(!new)>(core: Core<R>, entries: seq<Entry>, ms: seq<Migration>, l: Learner<R>)
    requires KeepsTopology(core) && Fits(l.net) && Ordered(entries)
    ensures Replay(core, entries, ms, l).status == Ok <==>
              && ChainFrom(l.net.architecture, ms) && Continues(l.net, ms)
              && Bound(entries, ms) && AllReplayable(entries)
              && var v := FirstRefusal(core, Events(entries, ms), l); v.Accepted? || v.ev.ExpandBy?
  {
    hide Fits, KeepsTopology, Replay, Events, Bound, AllReplayable, ChainFrom, Continues, Sorted, Ordered;
    ReplayIsFold(core, entries, ms, l);
    var events := Events(entries, ms);
    FoldDoneIff(core, events, l);
    if ChainFrom(l.net.architecture, ms) && Bound(entries, ms) {
      ChainFromIsSorted(l.net.architecture, ms);
      EveryMigrationOnce(entries, ms);
      if Continues(l.net, ms) {
        ExpansionsNeverRefuse(core, events, l);
      }
      if Fold(core, events, l).Done? {
        DoneContinues(core, events, l);
      }
    }
  }
}
