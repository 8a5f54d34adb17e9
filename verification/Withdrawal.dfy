/**
 Consequences of replay being a fold: withdrawing or releasing an entry deletes only its own
 events, removing it altogether comes to the same unless a migration hangs on it, and a ledger may
 be replayed in two parts.
 */
module Withdrawal {
  import opened NeuralLayout
  import opened NeuralRoles
  import opened NeuralExpansion
  import opened ReplaySpec
  import opened ReplayLaws
  import Sequences

  /** The events that are not the entry's own. */
  function Without(events: seq<Event>, id: nat): seq<Event> {
    if events == [] then [] else
      (if !events[0].ExpandBy? && events[0].e.id == id then [] else [events[0]]) + Without(events[1..], id)
  }

  lemma {:induction false} WithoutJoin(a: seq<Event>, b: seq<Event>, id: nat)
    ensures Without(a + b, id) == Without(a, id) + Without(b, id)
  {
    if a == [] {
      Sequences.EmptyJoin(b);
      Sequences.EmptyJoin(Without(b, id));
    } else {
      WithoutJoin(a[1..], b, id);
      Sequences.TailOfJoin(a, b);
      Sequences.Associate(if !a[0].ExpandBy? && a[0].e.id == id then [] else [a[0]], Without(a[1..], id), Without(b, id));
    }
  }

  lemma {:induction false} WithoutAt(ms: seq<Migration>, boundary: nat, id: nat)
    ensures Without(At(ms, boundary), id) == At(ms, boundary)
  {
    if ms != [] {
      WithoutAt(ms[1..], boundary, id);
      WithoutJoin(if ms[0].boundary == boundary then [ExpandBy(ms[0])] else [], At(ms[1..], boundary), id);
      WithoutExpansion(ms[0], id);
    }
  }

  lemma WithoutExpansion(m: Migration, id: nat)
    ensures Without([ExpandBy(m)], id) == [ExpandBy(m)]
    ensures Without([], id) == []
  {
    assert [ExpandBy(m)][1..] == [];
  }

  lemma WithoutOwn(e: Entry, id: nat)
    ensures Without(Own(e), id) == if e.id == id then [] else Own(e)
  {
    var one, two := [Mirror(e)], [Observe(e), Mirror(e)];
    assert one[1..] == [] && two == [Observe(e)] + one;
    assert [Observe(e)][1..] == [];
    WithoutJoin([Observe(e)], one, id);
  }

  lemma {:induction false} WithoutAbsent(entries: seq<Entry>, ms: seq<Migration>, id: nat)
    requires forall i :: 0 <= i < |entries| ==> entries[i].id != id
    ensures Without(EntryEvents(entries, ms), id) == EntryEvents(entries, ms)
  {
    hide At, Own, Without;
    if entries == [] {
      WithoutNothing(id);
    } else {
      var e := entries[0];
      WithoutAbsent(entries[1..], ms, id);
      WithoutJoin(Own(e) + At(ms, e.id), EntryEvents(entries[1..], ms), id);
      WithoutJoin(Own(e), At(ms, e.id), id);
      WithoutOwn(e, id);
      WithoutAt(ms, e.id, id);
    }
  }

  lemma WithoutNothing(id: nat)
    ensures Without([], id) == []
  {
  }

  /** Silencing an entry in place removes exactly its own events. */
  lemma {:induction false} SilencedEntryEvents(entries: seq<Entry>, ms: seq<Migration>, i: nat, silent: Entry)
    requires Ordered(entries) && i < |entries| && silent.id == entries[i].id && Own(silent) == []
    ensures EntryEvents(entries[i := silent], ms) == Without(EntryEvents(entries, ms), silent.id)
  {
    hide At, Own, Without, Ordered;
    OrderedTail(entries);
    var e, id := entries[0], silent.id;
    var later := entries[i := silent];
    WithoutJoin(Own(e) + At(ms, e.id), EntryEvents(entries[1..], ms), id);
    WithoutJoin(Own(e), At(ms, e.id), id);
    WithoutOwn(e, id);
    WithoutAt(ms, e.id, id);
    if i == 0 {
      assert later[1..] == entries[1..];
      WithoutAbsent(entries[1..], ms, id);
    } else {
      assert later[1..] == entries[1..][i - 1 := silent];
      SilencedEntryEvents(entries[1..], ms, i - 1, silent);
    }
  }

  lemma SilencedEvents(entries: seq<Entry>, ms: seq<Migration>, i: nat, silent: Entry)
    requires Ordered(entries) && i < |entries| && silent.id == entries[i].id && Own(silent) == []
    ensures Events(entries[i := silent], ms) == Without(Events(entries, ms), silent.id)
  {
    hide At, Own, Without, EntryEvents;
    SilencedEntryEvents(entries, ms, i, silent);
    WithoutJoin(At(ms, 0), EntryEvents(entries, ms), silent.id);
    WithoutAt(ms, 0, silent.id);
  }

  lemma SilencedBound(entries: seq<Entry>, ms: seq<Migration>, i: nat, silent: Entry)
    requires Ordered(entries) && i < |entries| && silent.id == entries[i].id
    ensures Ordered(entries[i := silent])
    ensures Bound(entries[i := silent], ms) <==> Bound(entries, ms)
  {
    var later := entries[i := silent];
    forall id: nat
      ensures HasId(later, id) <==> HasId(entries, id)
    {
      if HasId(entries, id) {
        var j :| 0 <= j < |entries| && entries[j].id == id;
        assert later[j].id == id;
      }
      if HasId(later, id) {
        var j :| 0 <= j < |later| && later[j].id == id;
        assert entries[j].id == id;
      }
    }
  }

  function Withdraw(e: Entry): Entry {
    e.(outcome := Withdrawn)
  }

  /** The text of a learned entry given up to a size cap. */
  function Release(e: Entry): Entry {
    e.(probeOk := true, payload := [], released := true)
  }

  lemma WithdrawnAndReleasedAreSilent(e: Entry)
    ensures Own(Withdraw(e)) == []
    ensures e.outcome.Learned? ==> Own(Release(e)) == []
  {
  }

  /**
   As if never learned: replay with an entry silenced — withdrawn, released, still pending or
   failed, whatever its contents — succeeds and computes exactly as the fold over the original
   events without that entry's own.
   */
  lemma SilencingForgets<R(!new)>(core: Core<R>, entries: seq<Entry>, ms: seq<Migration>, l: Learner<R>,
                                  i: nat, silent: Entry)
    requires KeepsTopology(core) && Fits(l.net) && Ordered(entries)
    requires i < |entries| && silent.id == entries[i].id && Own(silent) == []
    ensures var r, f := Replay(core, entries[i := silent], ms, l), Fold(core, Without(Events(entries, ms), silent.id), l);
            && (r.status == Ok <==> ChainFrom(l.net.architecture, ms) && Bound(entries, ms) &&
                                    AllReplayable(entries[i := silent]) && f.Done?)
            && (r.status == Ok ==> r.learner == f.learner)
  {
    hide Fits, KeepsTopology, Replay, Events, Bound, AllReplayable, ChainFrom, Ordered, Own, Without;
    SilencedBound(entries, ms, i, silent);
    SilencedEvents(entries, ms, i, silent);
    ReplayIsFold(core, entries[i := silent], ms, l);
  }

  /** Entries that were never committed cannot be told apart by what they contain. */
  lemma SilentContentsDoNotMatter<R(!new)>(core: Core<R>, entries: seq<Entry>, ms: seq<Migration>, l: Learner<R>,
                                           i: nat, silent: Entry)
    requires KeepsTopology(core) && Fits(l.net) && Ordered(entries)
    requires i < |entries| && silent.id == entries[i].id && Own(silent) == [] && Own(entries[i]) == []
    requires Admitted(silent) && Sourced(silent) && Admitted(entries[i]) && Sourced(entries[i])
    ensures var r, r' := Replay(core, entries, ms, l), Replay(core, entries[i := silent], ms, l);
            && (r.status == Ok <==> r'.status == Ok)
            && (r.status == Ok ==> r.learner == r'.learner)
  {
    hide Fits, KeepsTopology, Replay, Events, Bound, ChainFrom, Ordered, Own, Without, Admitted, Sourced;
    assert entries[i := entries[i]] == entries;
    SilencingForgets(core, entries, ms, l, i, silent);
    SilencingForgets(core, entries, ms, l, i, entries[i]);
    var later := entries[i := silent];
    if AllReplayable(entries) {
      forall k | 0 <= k < |later|
        ensures Admitted(later[k]) && Sourced(later[k])
      {
        assert k != i ==> later[k] == entries[k];
      }
    }
    if AllReplayable(later) {
      forall k | 0 <= k < |entries|
        ensures Admitted(entries[k]) && Sourced(entries[k])
      {
        assert k != i ==> later[k] == entries[k];
      }
    }
  }

  // ---------------------------------------------------------------- removal

  function Remove(entries: seq<Entry>, i: nat): seq<Entry>
    requires i < |entries|
  {
    entries[..i] + entries[i + 1..]
  }

  predicate AnyAt(ms: seq<Migration>, id: nat) {
    exists k :: 0 <= k < |ms| && ms[k].boundary == id
  }

  lemma NoneAt(ms: seq<Migration>, id: nat)
    requires !AnyAt(ms, id)
    ensures forall k :: 0 <= k < |ms| ==> ms[k].boundary != id
  {
  }

  lemma OrderedTail(entries: seq<Entry>)
    requires Ordered(entries) && entries != []
    ensures Ordered(entries[1..])
    ensures forall j :: 0 <= j < |entries[1..]| ==> entries[1..][j].id != entries[0].id
  {
  }

  lemma {:induction false} RemovedEntryEvents(entries: seq<Entry>, ms: seq<Migration>, i: nat)
    requires Ordered(entries) && i < |entries| && !AnyAt(ms, entries[i].id)
    ensures EntryEvents(Remove(entries, i), ms) == Without(EntryEvents(entries, ms), entries[i].id)
  {
    hide At, Own, Without, Ordered, AnyAt;
    OrderedTail(entries);
    var e, id := entries[0], entries[i].id;
    WithoutJoin(Own(e) + At(ms, e.id), EntryEvents(entries[1..], ms), id);
    WithoutJoin(Own(e), At(ms, e.id), id);
    WithoutOwn(e, id);
    WithoutAt(ms, e.id, id);
    if i == 0 {
      assert Remove(entries, i) == entries[1..];
      NoneAt(ms, id);
      AtAbsent(ms, id);
      WithoutAbsent(entries[1..], ms, id);
    } else {
      assert Remove(entries, i)[1..] == Remove(entries[1..], i - 1);
      RemovedEntryEvents(entries[1..], ms, i - 1);
    }
  }

  lemma RemovedHasId(entries: seq<Entry>, i: nat, id: nat)
    requires Ordered(entries) && i < |entries|
    ensures HasId(Remove(entries, i), id) <==> HasId(entries, id) && id != entries[i].id
  {
    var later := Remove(entries, i);
    assert forall j :: 0 <= j < |later| ==> later[j] == entries[if j < i then j else j + 1];
    if HasId(entries, id) && id != entries[i].id {
      var j :| 0 <= j < |entries| && entries[j].id == id;
      var k := if j < i then j else j - 1;
      assert later[k].id == id;
    }
  }

  lemma RemovedOrdered(entries: seq<Entry>, i: nat)
    requires Ordered(entries) && i < |entries|
    ensures Ordered(Remove(entries, i))
  {
    var later := Remove(entries, i);
    assert forall j :: 0 <= j < |later| ==> later[j] == entries[if j < i then j else j + 1];
  }

  lemma RemovedBound(entries: seq<Entry>, ms: seq<Migration>, i: nat)
    requires Ordered(entries) && i < |entries| && Bound(entries, ms)
    ensures Ordered(Remove(entries, i))
    ensures Bound(Remove(entries, i), ms) <==> !AnyAt(ms, entries[i].id)
  {
    RemovedOrdered(entries, i);
    assert entries[i].id > 0;
    hide Ordered, HasId, Remove;
    forall k | 0 <= k < |ms|
      ensures HasId(Remove(entries, i), ms[k].boundary) <==>
              HasId(entries, ms[k].boundary) && ms[k].boundary != entries[i].id
    {
      RemovedHasId(entries, i, ms[k].boundary);
    }
  }

  /**
   Where withdrawing an entry replays, dropping it from the ledger altogether replays to the same
   state exactly when no migration is bound to it; otherwise the replay is refused.
   */
  lemma RemovalIsWithdrawalIff<R(!new)>(core: Core<R>, entries: seq<Entry>, ms: seq<Migration>, l: Learner<R>, i: nat)
    requires KeepsTopology(core) && Fits(l.net) && Ordered(entries) && i < |entries|
    requires Replay(core, entries[i := Withdraw(entries[i])], ms, l).status == Ok
    ensures var r, r' := Replay(core, entries[i := Withdraw(entries[i])], ms, l), Replay(core, Remove(entries, i), ms, l);
            && (r'.status == Ok <==> !AnyAt(ms, entries[i].id))
            && (r'.status == Ok ==> r'.learner == r.learner)
  {
    hide Fits, KeepsTopology, Replay, Bound, ChainFrom, Ordered, Own, Without, Admitted, Sourced, Remove, AnyAt,
         At, EntryEvents;
    var e := entries[i];
    WithdrawnAndReleasedAreSilent(e);
    SilencingForgets(core, entries, ms, l, i, Withdraw(e));
    RemovedBound(entries, ms, i);
    RemovedReplayable(entries, i, Withdraw(e));
    ReplayIsFold(core, Remove(entries, i), ms, l);
    if !AnyAt(ms, e.id) {
      RemovedEntryEvents(entries, ms, i);
      WithoutJoin(At(ms, 0), EntryEvents(entries, ms), e.id);
      WithoutAt(ms, 0, e.id);
    }
  }

  lemma RemovedReplayable(entries: seq<Entry>, i: nat, silent: Entry)
    requires i < |entries| && AllReplayable(entries[i := silent])
    ensures AllReplayable(Remove(entries, i))
  {
    hide Admitted, Sourced;
    var later := Remove(entries, i);
    forall j | 0 <= j < |later|
      ensures Admitted(later[j]) && Sourced(later[j])
    {
      assert later[j] == entries[i := silent][if j < i then j else j + 1];
    }
  }

  // ---------------------------------------------------------------- two parts

  /** How many migrations at the front are bound to at most `last`. */
  function UpTo(ms: seq<Migration>, last: nat): (k: nat)
    ensures k <= |ms|
    ensures forall i :: 0 <= i < k ==> ms[i].boundary <= last
    ensures k < |ms| ==> ms[k].boundary > last
  {
    if ms == [] || ms[0].boundary > last then 0 else 1 + UpTo(ms[1..], last)
  }

  function LastId(entries: seq<Entry>): nat {
    if entries == [] then 0 else entries[|entries| - 1].id
  }

  lemma {:induction false} EntryEventsJoin(a: seq<Entry>, b: seq<Entry>, ms: seq<Migration>)
    ensures EntryEvents(a + b, ms) == EntryEvents(a, ms) + EntryEvents(b, ms)
  {
    hide At, Own;
    if a == [] {
      Sequences.EmptyJoin(b);
      Sequences.EmptyJoin(EntryEvents(b, ms));
    } else {
      EntryEventsJoin(a[1..], b, ms);
      Sequences.TailOfJoin(a, b);
      Sequences.Associate(Own(a[0]) + At(ms, a[0].id), EntryEvents(a[1..], ms), EntryEvents(b, ms));
    }
  }

  /** Migrations bound past the entries do not show in their events. */
  lemma {:induction false} EntryEventsKeep(entries: seq<Entry>, ms: seq<Migration>, k: nat)
    requires k <= |ms| && forall i, j :: k <= i < |ms| && 0 <= j < |entries| ==> ms[i].boundary != entries[j].id
    ensures EntryEvents(entries, ms) == EntryEvents(entries, ms[..k])
    decreases |entries|
  {
    hide At, Own;
    if entries != [] {
      AtKeep(ms, k, entries[0].id);
      EntryEventsKeep(entries[1..], ms, k);
    }
  }

  lemma AtKeep(ms: seq<Migration>, k: nat, boundary: nat)
    requires k <= |ms| && forall i :: k <= i < |ms| ==> ms[i].boundary != boundary
    ensures At(ms, boundary) == At(ms[..k], boundary)
  {
    AtJoin(ms[..k], ms[k..], boundary);
    assert ms == ms[..k] + ms[k..];
    AtAbsent(ms[k..], boundary);
  }

  lemma OrderedParts(a: seq<Entry>, b: seq<Entry>)
    requires Ordered(a + b)
    ensures Ordered(a) && Ordered(b)
    ensures forall j :: 0 <= j < |a| ==> a[j].id <= LastId(a)
    ensures forall j :: 0 <= j < |b| ==> b[j].id > LastId(a)
  {
    assert forall j :: 0 <= j < |a| ==> (a + b)[j] == a[j];
    assert forall j :: 0 <= j < |b| ==> (a + b)[|a| + j] == b[j];
  }

  /** In a coherent chain everything after the split is bound past it. */
  lemma LaterIsPast(ms: seq<Migration>, last: nat)
    requires Sorted(ms[UpTo(ms, last)..])
    ensures forall i :: UpTo(ms, last) <= i < |ms| ==> ms[i].boundary > last
  {
    hide UpTo;
    var k := UpTo(ms, last);
    forall i | k <= i < |ms|
      ensures ms[i].boundary > last
    {
      assert ms[k..][0] == ms[k] && ms[k..][i - k] == ms[i];
    }
  }

  lemma EventsSplit(a: seq<Entry>, b: seq<Entry>, ms: seq<Migration>)
    requires Ordered(a + b) && Sorted(ms[UpTo(ms, LastId(a))..])
    ensures var k := UpTo(ms, LastId(a)); Events(a + b, ms) == Events(a, ms[..k]) + Events(b, ms[k..])
  {
    hide At, EntryEvents, UpTo;
    var k := UpTo(ms, LastId(a));
    OrderedParts(a, b);
    LaterIsPast(ms, LastId(a));
    EntryEventsJoin(a, b, ms);
    EntryEventsKeep(a, ms, k);
    EntryEventsDrop(b, ms, k);
    AtKeep(ms, k, 0);
    AtAbsent(ms[k..], 0);
  }

  lemma HasIdJoin(a: seq<Entry>, b: seq<Entry>, id: nat)
    ensures HasId(a + b, id) <==> HasId(a, id) || HasId(b, id)
  {
    if HasId(a, id) {
      var j :| 0 <= j < |a| && a[j].id == id;
      assert (a + b)[j].id == id;
    }
    if HasId(b, id) {
      var j :| 0 <= j < |b| && b[j].id == id;
      assert (a + b)[|a| + j].id == id;
    }
    if HasId(a + b, id) {
      var j :| 0 <= j < |a + b| && (a + b)[j].id == id;
      if j >= |a| {
        assert b[j - |a|].id == id;
      }
    }
  }

  lemma BoundParts(a: seq<Entry>, b: seq<Entry>, ms: seq<Migration>)
    requires Ordered(a + b) && Sorted(ms[UpTo(ms, LastId(a))..])
    ensures var k := UpTo(ms, LastId(a)); Bound(a + b, ms) <==> Bound(a, ms[..k]) && Bound(b, ms[k..])
  {
    hide UpTo;
    var k := UpTo(ms, LastId(a));
    OrderedParts(a, b);
    LaterIsPast(ms, LastId(a));
    forall i | 0 <= i < |ms|
      ensures HasId(a + b, ms[i].boundary) <==> if i < k then HasId(a, ms[i].boundary) else HasId(b, ms[i].boundary)
    {
      HasIdJoin(a, b, ms[i].boundary);
    }
    hide HasId;
    assert forall i :: 0 <= i < k ==> ms[..k][i] == ms[i];
    assert forall i :: k <= i < |ms| ==> ms[k..][i - k] == ms[i];
  }

  lemma ReplayableParts(a: seq<Entry>, b: seq<Entry>)
    ensures AllReplayable(a + b) <==> AllReplayable(a) && AllReplayable(b)
  {
    hide Admitted, Sourced;
    assert forall j :: 0 <= j < |a| ==> (a + b)[j] == a[j];
    assert forall j :: 0 <= j < |b| ==> (a + b)[|a| + j] == b[j];
  }

  lemma ChainParts(ms: seq<Migration>, k: nat)
    requires k <= |ms|
    ensures Chain(ms) <==>
              && Chain(ms[..k]) && Chain(ms[k..])
              && (0 < k < |ms| ==> ms[k - 1].target == ms[k].source && ms[k - 1].boundary <= ms[k].boundary)
  {
    hide ValidMigration;
    var x, y := ms[..k], ms[k..];
    assert forall i :: k <= i < |ms| ==> ms[i] == y[i - k];
    if Chain(x) && Chain(y) && (0 < k < |ms| ==> ms[k - 1].target == ms[k].source && ms[k - 1].boundary <= ms[k].boundary) {
      forall i | 0 < i < |ms|
        ensures ms[i - 1].target == ms[i].source && ms[i - 1].boundary <= ms[i].boundary
      {
        if i < k {
          assert x[i - 1] == ms[i - 1] && x[i] == ms[i];
        } else if i > k {
          assert y[i - 1 - k] == ms[i - 1] && y[i - k] == ms[i];
        }
      }
    }
    if Chain(ms) {
      forall i | 0 < i < |y|
        ensures y[i - 1].target == y[i].source && y[i - 1].boundary <= y[i].boundary
      {
        assert y[i - 1] == ms[k + i - 1] && y[i] == ms[k + i];
      }
    }
  }

  /** What the first part leaves is where the second part's chain must start. */
  lemma AfterFirstPart<R(!new)>(core: Core<R>, entries: seq<Entry>, ms: seq<Migration>, l: Learner<R>)
    requires KeepsTopology(core) && Fits(l.net) && Ordered(entries)
    requires ChainFrom(l.net.architecture, ms) && Bound(entries, ms)
    requires Fold(core, Events(entries, ms), l).Done?
    ensures Fold(core, Events(entries, ms), l).learner.net.architecture ==
            if ms == [] then l.net.architecture else ms[|ms| - 1].target
  {
    hide Fits, KeepsTopology, Events, Bound, ChainFrom, Ordered, Continues;
    ChainFromIsSorted(l.net.architecture, ms);
    EveryMigrationOnce(entries, ms);
    DoneContinues(core, Events(entries, ms), l);
    ExpansionsNeverRefuse(core, Events(entries, ms), l);
  }

  /** The chain from the graph splits into the part so far and the part from where it led. */
  lemma ChainFromParts(a: Architecture, ms: seq<Migration>, last: nat)
    ensures var k := UpTo(ms, last);
            var mid := if k == 0 then a else ms[k - 1].target;
            ChainFrom(a, ms) <==> ChainFrom(a, ms[..k]) && ChainFrom(mid, ms[k..])
  {
    hide Chain, ValidMigration, UpTo;
    var k := UpTo(ms, last);
    ChainParts(ms, k);
    EmptyChain(ms[..0]);
    EmptyChain(ms[|ms|..]);
    assert ms[..|ms|] == ms && ms[0..] == ms;
  }

  /**
   Replaying a ledger is replaying any prefix with the migrations bound to it and then, from what
   that leaves, the rest with the rest: one succeeds exactly when both do, with the same result.
   */
  lemma ReplayInTwoParts<R(!new)>(core: Core<R>, a: seq<Entry>, b: seq<Entry>, ms: seq<Migration>, l: Learner<R>)
    requires KeepsTopology(core) && Fits(l.net) && Ordered(a + b)
    ensures var k := UpTo(ms, LastId(a));
            var whole, first := Replay(core, a + b, ms, l), Replay(core, a, ms[..k], l);
            && (whole.status == Ok <==>
                 && first.status == Ok && Fits(first.learner.net)
                 && Replay(core, b, ms[k..], first.learner).status == Ok)
            && (whole.status == Ok ==> whole.learner == Replay(core, b, ms[k..], first.learner).learner)
  {
    hide Fits, KeepsTopology, Replay, Events, Bound, ChainFrom, Ordered, AllReplayable, UpTo, Sorted;
    var k := UpTo(ms, LastId(a));
    var arch := l.net.architecture;
    OrderedParts(a, b);
    ReplayIsFold(core, a + b, ms, l);
    ReplayIsFold(core, a, ms[..k], l);
    ChainFromParts(arch, ms, LastId(a));
    ReplayableParts(a, b);
    var f := Fold(core, Events(a, ms[..k]), l);
    var mid := if k == 0 then arch else ms[k - 1].target;
    if ChainFrom(arch, ms[..k]) && ChainFrom(mid, ms[k..]) {
      ChainFromIsSorted(mid, ms[k..]);
      EventsSplit(a, b, ms);
      BoundParts(a, b, ms);
      FoldJoin(core, Events(a, ms[..k]), Events(b, ms[k..]), l);
    }
    if ChainFrom(arch, ms[..k]) && Bound(a, ms[..k]) && f.Done? {
      AfterFirstPart(core, a, ms[..k], l);
      ReplayIsFold(core, b, ms[k..], f.learner);
    }
  }
}
