/** What a replay's report means: each counter is a count on the ledger, and a fault names its cause. */
module ReplayReport {
  import opened NeuralLayout
  import opened NeuralRoles
  import opened NeuralExpansion
  import opened ReplaySpec

  // ---------------------------------------------------------------- counters

  datatype Kind = KindReplayed | KindMirrored | KindPending | KindFailed | KindWithdrawn | KindReleased

  /** Which entries a counter is for. */
  predicate Has(e: Entry, k: Kind) {
    match k
    case KindReplayed => e.outcome == Learned && e.payload != []
    case KindMirrored => e.outcome == Skipped
    case KindPending => e.outcome == Pending
    case KindFailed => e.outcome == Failed
    case KindWithdrawn => e.outcome == Withdrawn
    case KindReleased => e.outcome == Learned && e.payload == [] && e.released
  }

  function Number(entries: seq<Entry>, k: Kind): nat {
    if entries == [] then 0 else (if Has(entries[0], k) then 1 else 0) + Number(entries[1..], k)
  }

  function CounterOf(r: Report, k: Kind): nat {
    match k
    case KindReplayed => r.replayed
    case KindMirrored => r.mirrored
    case KindPending => r.pending
    case KindFailed => r.failed
    case KindWithdrawn => r.withdrawn
    case KindReleased => r.released
  }

  /** Every counter has gone up by the number of these entries that are of its kind. */
  predicate Adds(before: Report, after: Report, entries: seq<Entry>) {
    forall k :: CounterOf(after, k) == CounterOf(before, k) + Number(entries, k)
  }

  lemma EntryAdds<R(!new)>(core: Core<R>, e: Entry, l: Learner<R>, report: Report)
    requires KeepsTopology(core) && Fits(l.net)
    ensures var r := ApplyEntry(core, e, l, report);
            Adds(report, r.report, if r.status == Ok then [e] else [])
  {
    hide Number, Fits;
    assert Kept(l, core.observe(l, e)) && Kept(l, core.mirror(l, e));
    if core.observe(l, e).Done? {
      var l' := core.observe(l, e).learner;
      assert Kept(l', core.mirror(l', e));
    }
    var r := ApplyEntry(core, e, l, report);
    var handled := if r.status == Ok then [e] else [];
    forall k
      ensures CounterOf(r.report, k) == CounterOf(report, k) + Number(handled, k)
    {
      NumberOfOne(e, k);
    }
  }

  lemma NumberOfOne(e: Entry, k: Kind)
    ensures Number([], k) == 0
    ensures Number([e], k) == if Has(e, k) then 1 else 0
  {
    assert [e][1..] == [];
  }

  lemma {:induction false} MigrationsAdd<R>(l: Learner<R>, ms: seq<Migration>, boundary: nat, report: Report)
    requires Fits(l.net)
    ensures var (r, left) := ApplyMigrations(l, ms, boundary, report);
            && Adds(report, r.report, [])
            && r.report.failedSchema == report.failedSchema
            && (forall m :: m in left ==> m in ms)
            && (r.status == Ok || (r.status == MigrationError && r.report.failedAtId == boundary))
    decreases |ms|
  {
    hide Fits, CanExpand, Expand;
    if ms != [] && ms[0].boundary == boundary && CanExpand(l.net, ms[0]) {
      MigrationsAdd(l.(net := Expand(l.net, ms[0])), ms[1..], boundary, report.(migrations := report.migrations + 1));
    }
  }

  lemma AddsStep(a: Report, b: Report, c: Report, d: Report, e: Entry, rest: seq<Entry>, n: nat)
    requires Adds(a, b, [e]) && Adds(b, c, []) && n <= |rest| && Adds(c, d, rest[..n])
    ensures Adds(a, d, ([e] + rest)[..n + 1])
  {
    hide Has, CounterOf;
    var whole := ([e] + rest)[..n + 1];
    assert whole[0] == e && whole[1..] == rest[..n];
    forall k
      ensures CounterOf(d, k) == CounterOf(a, k) + Number(whole, k)
    {
      assert CounterOf(b, k) == CounterOf(a, k) + Number([e], k);
      assert CounterOf(c, k) == CounterOf(b, k) + Number([], k);
      assert CounterOf(d, k) == CounterOf(c, k) + Number(rest[..n], k);
    }
  }

  // ---------------------------------------------------------------- faults

  /** The fault an entry's own reads show, in the order in which they are made, with what is reported. */
  predicate FaultOf(e: Entry, place: nat, status: Status, r: Report) {
    if !e.readable then
      status == FormatError && r.failedAtId == place
    else
      && r.failedAtId == e.id
      && if e.schema != 1 && e.schema != 2 then
           status == SchemaError && r.failedSchema == e.schema
         else if !e.contextOk || e.outcome.Unknown? then
           status == FormatError
         else if e.outcome == Learned && e.payload == [] then
           status == FormatError && !(e.probeOk && e.released)
         else if e.outcome == Learned && !(e.probeOk && e.payloadOk) then
           status == FormatError
         else
           status != Ok && (e.outcome == Learned || e.outcome == Skipped)
  }

  predicate BlamesMigration(ms: seq<Migration>, r: Report) {
    exists m :: m in ms && m.boundary == r.failedAtId
  }

  /**
   How a loop that has handled the first `n` entries ends: at the end of the ledger; at the fault of
   the next entry; or with a migration that is refused, passed by or left over.
   */
  predicate EndsAfter(entries: seq<Entry>, position: nat, ms: seq<Migration>, n: nat, status: Status, r: Report) {
    && n <= |entries|
    && (status == Ok ==> n == |entries|)
    && (status != Ok ==>
         || (n < |entries| && FaultOf(entries[n], position + n + 1, status, r))
         || (n < |entries| && entries[n].readable && status == MigrationError
             && BlamesMigration(ms, r) && r.failedAtId < entries[n].id)
         || (n > 0 && status == MigrationError && r.failedAtId == entries[n - 1].id && BlamesMigration(ms, r))
         || (n == |entries| && status == MigrationError && BlamesMigration(ms, r)))
  }

  /** Counters and fault agree on how far the loop came. */
  predicate Accounts(entries: seq<Entry>, position: nat, ms: seq<Migration>, before: Report, status: Status, r: Report) {
    exists n: nat :: n <= |entries| && Adds(before, r, entries[..n]) && EndsAfter(entries, position, ms, n, status, r)
  }

  lemma {:induction false} RefusedIsBound<R>(l: Learner<R>, ms: seq<Migration>, boundary: nat, report: Report)
    requires Fits(l.net)
    ensures var r := ApplyMigrations(l, ms, boundary, report).0;
            r.status != Ok ==> r.status == MigrationError && BlamesMigration(ms, r.report)
    decreases |ms|
  {
    hide Fits, CanExpand, Expand;
    if ms != [] && ms[0].boundary == boundary {
      assert ms[0] in ms;
      if CanExpand(l.net, ms[0]) {
        RefusedIsBound(l.(net := Expand(l.net, ms[0])), ms[1..], boundary, report.(migrations := report.migrations + 1));
      }
    }
  }

  lemma EntryFault<R(!new)>(core: Core<R>, e: Entry, place: nat, ms: seq<Migration>, l: Learner<R>, report: Report)
    requires KeepsTopology(core) && Fits(l.net)
    ensures var (status, r) := Precheck(e, place, ms, report);
            && (status != Ok ==>
                 && Adds(report, r, [])
                 && (FaultOf(e, place + 1, status, r) ||
                     (e.readable && status == MigrationError && BlamesMigration(ms, r) && r.failedAtId < e.id)))
            && (status == Ok ==>
                 var applied := ApplyEntry(core, e, l, report);
                 applied.status != Ok ==> FaultOf(e, place + 1, applied.status, applied.report))
  {
    hide Fits;
    assert Kept(l, core.observe(l, e)) && Kept(l, core.mirror(l, e));
    if core.observe(l, e).Done? {
      var l' := core.observe(l, e).learner;
      assert Kept(l', core.mirror(l', e));
    }
  }

  lemma EndsStep(entries: seq<Entry>, position: nat, ms: seq<Migration>, left: seq<Migration>, n: nat, status: Status, r: Report)
    requires entries != [] && EndsAfter(entries[1..], position + 1, left, n, status, r)
    requires forall m :: m in left ==> m in ms
    ensures EndsAfter(entries, position, ms, n + 1, status, r)
  {
    hide FaultOf;
    assert BlamesMigration(left, r) ==> BlamesMigration(ms, r);
  }

  /** The loop's report, from any point: the counters count the entries handled, and a fault is the next one's. */
  lemma {:induction false} LoopAccounts<R(!new)>(core: Core<R>, entries: seq<Entry>, position: nat, ms: seq<Migration>,
                                                 l: Learner<R>, report: Report)
    requires KeepsTopology(core) && Fits(l.net)
    ensures var r := Loop(core, entries, position, ms, l, report);
            Accounts(entries, position, ms, report, r.status, r.report)
    decreases |entries|
  {
    hide Fits, KeepsTopology, ApplyEntry, ApplyMigrations, Precheck, Adds, FaultOf, EndsAfter, BlamesMigration;
    var r := Loop(core, entries, position, ms, l, report);
    if entries == [] {
      LedgerEnds(entries, position, ms, l, report, core);
    } else {
      var e := entries[0];
      EntryFault(core, e, position, ms, l, report);
      EntryAdds(core, e, l, report);
      ApplyEntryKeeps(core, e, l, report);
      var applied := ApplyEntry(core, e, l, report);
      if Precheck(e, position, ms, report).0 != Ok || applied.status != Ok {
        FaultAtOnce(entries, position, ms, report, r.status, r.report);
      } else {
        ApplyMigrationsKeeps(applied.learner, ms, e.id, applied.report);
        MigrationsAdd(applied.learner, ms, e.id, applied.report);
        RefusedIsBound(applied.learner, ms, e.id, applied.report);
        var (migrated, left) := ApplyMigrations(applied.learner, ms, e.id, applied.report);
        if migrated.status != Ok {
          OneHandled(entries, position, ms, report, applied.report, migrated.status, migrated.report);
        } else {
          LoopAccounts(core, entries[1..], position + 1, left, migrated.learner, migrated.report);
          MoreHandled(entries, position, ms, left, report, applied.report, migrated.report, r.status, r.report);
        }
      }
    }
  }

  lemma LedgerEnds<R(!new)>(entries: seq<Entry>, position: nat, ms: seq<Migration>, l: Learner<R>, report: Report, core: Core<R>)
    requires KeepsTopology(core) && Fits(l.net) && entries == []
    ensures var r := Loop(core, entries, position, ms, l, report);
            Accounts(entries, position, ms, report, r.status, r.report)
  {
    var r := Loop(core, entries, position, ms, l, report);
    assert ms != [] ==> ms[0] in ms;
    assert Adds(report, r.report, entries[..0]);
  }

  lemma FaultAtOnce(entries: seq<Entry>, position: nat, ms: seq<Migration>, before: Report, status: Status, r: Report)
    requires entries != [] && Adds(before, r, []) && status != Ok
    requires FaultOf(entries[0], position + 1, status, r) ||
             (entries[0].readable && status == MigrationError && BlamesMigration(ms, r) && r.failedAtId < entries[0].id)
    ensures Accounts(entries, position, ms, before, status, r)
  {
    hide Adds, FaultOf, BlamesMigration;
    assert entries[..0] == [];
    assert EndsAfter(entries, position, ms, 0, status, r);
  }

  lemma OneHandled(entries: seq<Entry>, position: nat, ms: seq<Migration>, before: Report, own: Report, status: Status, r: Report)
    requires entries != [] && Adds(before, own, [entries[0]]) && Adds(own, r, [])
    requires status == MigrationError && r.failedAtId == entries[0].id && BlamesMigration(ms, r)
    ensures Accounts(entries, position, ms, before, status, r)
  {
    hide Adds, BlamesMigration;
    NothingAdded(r);
    assert entries[1..][..0] == [];
    assert [entries[0]] + entries[1..] == entries;
    AddsStep(before, own, r, r, entries[0], entries[1..], 0);
    assert EndsAfter(entries, position, ms, 1, status, r);
    assert Adds(before, r, entries[..0 + 1]);
  }

  lemma NothingAdded(r: Report)
    ensures Adds(r, r, [])
  {
  }

  lemma MoreHandled(entries: seq<Entry>, position: nat, ms: seq<Migration>, left: seq<Migration>, before: Report,
                    own: Report, moved: Report, status: Status, r: Report)
    requires entries != [] && Adds(before, own, [entries[0]]) && Adds(own, moved, [])
    requires Accounts(entries[1..], position + 1, left, moved, status, r)
    requires forall m :: m in left ==> m in ms
    ensures Accounts(entries, position, ms, before, status, r)
  {
    hide Adds, EndsAfter;
    var rest := entries[1..];
    var n: nat :| n <= |rest| && Adds(moved, r, rest[..n]) && EndsAfter(rest, position + 1, left, n, status, r);
    assert [entries[0]] + rest == entries;
    AddsStep(before, own, moved, r, entries[0], rest, n);
    EndsStep(entries, position, ms, left, n, status, r);
  }

  // ---------------------------------------------------------------- the whole replay

  /**
   The report of a replay. When the migrations are refused before the first entry, nothing is
   counted and a migration is named, or the last entry cannot be read. Otherwise the counters count
   some first entries of the ledger, each by its kind: all of them on success, and when the replay
   fails, those before the entry or migration it names.
   */
  lemma ReplayAccounts<R(!new)>(core: Core<R>, entries: seq<Entry>, ms: seq<Migration>, l: Learner<R>)
    requires KeepsTopology(core) && Fits(l.net)
    ensures var r := Replay(core, entries, ms, l);
            || Accounts(entries, 0, ms, EMPTY_REPORT, r.status, r.report)
            || (Adds(EMPTY_REPORT, r.report, []) && r.status == MigrationError && BlamesMigration(ms, r.report))
            || (r.status == FormatError && r.report == EMPTY_REPORT &&
                ms != [] && entries != [] && !entries[|entries| - 1].readable)
    ensures var r := Replay(core, entries, ms, l); r.status == Ok ==> Adds(EMPTY_REPORT, r.report, entries)
  {
    hide Fits, KeepsTopology, ValidateMigrations, ApplyMigrations, Adds, Accounts, Loop, BlamesMigration;
    RefusedChain(entries, l.net.architecture, ms);
    MigrationsAdd(l, ms, 0, EMPTY_REPORT);
    RefusedIsBound(l, ms, 0, EMPTY_REPORT);
    ApplyMigrationsKeeps(l, ms, 0, EMPTY_REPORT);
    var (migrated, left) := ApplyMigrations(l, ms, 0, EMPTY_REPORT);
    if migrated.status == Ok {
      LoopAccounts(core, entries, 0, left, migrated.learner, migrated.report);
      var r := Loop(core, entries, 0, left, migrated.learner, migrated.report);
      FromStart(entries, ms, left, migrated.report, r.status, r.report);
    }
  }

  /** Each counter is the number of ledger entries of its own kind. */
  predicate CountsEach(r: Report, ledger: seq<Entry>) {
    && r.pending == Number(ledger, KindPending)
    && r.failed == Number(ledger, KindFailed)
    && r.withdrawn == Number(ledger, KindWithdrawn)
    && r.mirrored == Number(ledger, KindMirrored)
    && r.replayed == Number(ledger, KindReplayed)
    && r.released == Number(ledger, KindReleased)
  }

  lemma SuccessCountsEach<R(!new)>(core: Core<R>, entries: seq<Entry>, ms: seq<Migration>, l: Learner<R>)
    requires KeepsTopology(core) && Fits(l.net)
    ensures var r := Replay(core, entries, ms, l); r.status == Ok ==> CountsEach(r.report, entries)
  {
    hide Fits, KeepsTopology, Replay, Accounts, BlamesMigration, Number;
    ReplayAccounts(core, entries, ms, l);
    var r := Replay(core, entries, ms, l).report;
    if Adds(EMPTY_REPORT, r, entries) {
      assert CounterOf(r, KindPending) == CounterOf(EMPTY_REPORT, KindPending) + Number(entries, KindPending);
      assert CounterOf(r, KindFailed) == CounterOf(EMPTY_REPORT, KindFailed) + Number(entries, KindFailed);
      assert CounterOf(r, KindWithdrawn) == CounterOf(EMPTY_REPORT, KindWithdrawn) + Number(entries, KindWithdrawn);
      assert CounterOf(r, KindMirrored) == CounterOf(EMPTY_REPORT, KindMirrored) + Number(entries, KindMirrored);
      assert CounterOf(r, KindReplayed) == CounterOf(EMPTY_REPORT, KindReplayed) + Number(entries, KindReplayed);
      assert CounterOf(r, KindReleased) == CounterOf(EMPTY_REPORT, KindReleased) + Number(entries, KindReleased);
    }
  }

  lemma RefusedChain(entries: seq<Entry>, a: Architecture, ms: seq<Migration>)
    ensures var (status, blamed) := ValidateMigrations(entries, a, ms);
            var r := EMPTY_REPORT.(failedAtId := blamed);
            && Adds(EMPTY_REPORT, r, [])
            && (status == MigrationError ==> BlamesMigration(ms, r))
            && (status == Ok || status == MigrationError ||
                (status == FormatError && blamed == 0 &&
                 ms != [] && entries != [] && !entries[|entries| - 1].readable))
  {
    var (status, blamed) := ValidateMigrations(entries, a, ms);
    if status == MigrationError {
      assert exists i :: 0 <= i < |ms| && ms[i].boundary == blamed;
    }
  }

  lemma FromStart(entries: seq<Entry>, ms: seq<Migration>, left: seq<Migration>, before: Report, status: Status, r: Report)
    requires Adds(EMPTY_REPORT, before, []) && Accounts(entries, 0, left, before, status, r)
    requires forall m :: m in left ==> m in ms
    ensures Accounts(entries, 0, ms, EMPTY_REPORT, status, r)
    ensures status == Ok ==> Adds(EMPTY_REPORT, r, entries)
  {
    hide FaultOf, Has, CounterOf;
    var n: nat :| n <= |entries| && Adds(before, r, entries[..n]) && EndsAfter(entries, 0, left, n, status, r);
    assert BlamesMigration(left, r) ==> BlamesMigration(ms, r);
    assert EndsAfter(entries, 0, ms, n, status, r);
    forall k
      ensures CounterOf(r, k) == CounterOf(EMPTY_REPORT, k) + Number(entries[..n], k)
    {
      assert CounterOf(before, k) == CounterOf(EMPTY_REPORT, k) + Number([], k);
    }
    assert Adds(EMPTY_REPORT, r, entries[..n]);
    assert status == Ok ==> entries[..n] == entries;
  }
}
