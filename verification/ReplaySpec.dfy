/**
 Deterministic replay. The core's loop merges the observation ledger with an ordered migration
 history and stops at the first fault; the reference is a plain fold over one list of events.
 */
module ReplaySpec {
  import opened Bytes
  import opened NeuralLayout
  import opened NeuralRoles
  import opened NeuralExpansion

  datatype Outcome = Pending | Learned | Skipped | Failed | Withdrawn | Unknown(code: nat)

  /**
   A ledger entry with the results its reads give: whether the entry, its context, its payload
   length and its verified payload can be read, and whether its text was released by a size cap.
   */
  datatype Entry = Entry(
    id: nat, schema: nat, outcome: Outcome,
    readable: bool, contextOk: bool, probeOk: bool, payloadOk: bool,
    payload: seq<byte>, released: bool)

  /** Learned state: the neural part in full, everything else as an opaque value. */
  datatype Learner<R> = Learner(net: GraphValue, rest: R)

  datatype Status = Ok | MigrationError | SchemaError | FormatError | CoreError(code: nat)

  datatype Attempt<R> = Done(learner: Learner<R>) | Refused(status: Status)

  /** The learning core's two operations on an entry. */
  datatype Core<!R> = Core(
    observe: (Learner<R>, Entry) -> Attempt<R>,
    mirror: (Learner<R>, Entry) -> Attempt<R>)

  /** Learning keeps the network's shape and its expansion history, and refuses with a fault. */
  ghost predicate KeepsTopology<R(!new)>(core: Core<R>) {
    && (forall l: Learner<R>, e: Entry :: Fits(l.net) ==> Kept(l, core.observe(l, e)))
    && (forall l: Learner<R>, e: Entry :: Fits(l.net) ==> Kept(l, core.mirror(l, e)))
  }

  predicate Kept<R>(l: Learner<R>, a: Attempt<R>) {
    match a
    case Done(l') => Fits(l'.net) && l'.net.architecture == l.net.architecture && l'.net.history == l.net.history
    case Refused(status) => status != Ok
  }

  datatype Report = Report(
    replayed: nat, mirrored: nat, pending: nat, failed: nat, withdrawn: nat, released: nat,
    migrations: nat, failedAtId: nat, failedSchema: nat)

  const EMPTY_REPORT := Report(0, 0, 0, 0, 0, 0, 0, 0, 0)

  predicate SchemaCanReplay(version: nat) {
    version == 1 || version == 2
  }

  // ---------------------------------------------------------------- the loop

  datatype Result<R> = Result(status: Status, learner: Learner<R>, report: Report)

  /** A ledger's ids are positive and strictly increasing. */
  predicate Ordered(entries: seq<Entry>) {
    && (forall i :: 0 <= i < |entries| ==> entries[i].id > 0)
    && (forall i, j :: 0 <= i < j < |entries| ==> entries[i].id < entries[j].id)
  }

  predicate ChainFrom(a: Architecture, ms: seq<Migration>) {
    ms != [] ==> a == ms[0].source && Chain(ms)
  }

  /** Migration `i` is invalid in itself or does not follow the one before it. */
  predicate BrokenAt(ms: seq<Migration>, i: nat)
    requires i < |ms|
  {
    || !ValidMigration(ms[i])
    || (i != 0 && ms[i].boundary < ms[i - 1].boundary)
    || (i != 0 && ms[i - 1].target != ms[i].source)
  }

  /** The first broken place from `i` on, or the length when there is none. */
  function FirstBreak(ms: seq<Migration>, i: nat): (k: nat)
    requires i <= |ms|
    ensures i <= k <= |ms|
    decreases |ms| - i
  {
    if i == |ms| || BrokenAt(ms, i) then i else FirstBreak(ms, i + 1)
  }

  /** What migration validation answers, and the boundary it blames. */
  function ValidateMigrations(entries: seq<Entry>, a: Architecture, ms: seq<Migration>): (Status, nat) {
    if ms == [] then (Ok, 0)
    else if a != ms[0].source then (MigrationError, ms[0].boundary)
    else
      var k := FirstBreak(ms, 0);
      var last := ms[|ms| - 1].boundary;
      if k < |ms| then (MigrationError, ms[k].boundary)
      else if entries == [] then (if last == 0 then (Ok, 0) else (MigrationError, last))
      else if !entries[|entries| - 1].readable then (FormatError, 0)
      else if last <= entries[|entries| - 1].id then (Ok, 0)
      else (MigrationError, last)
  }

  lemma {:induction false} FirstBreakIsFirst(ms: seq<Migration>, i: nat)
    requires i <= |ms|
    ensures FirstBreak(ms, i) == |ms| <==> forall k :: i <= k < |ms| ==> !BrokenAt(ms, k)
    decreases |ms| - i
  {
    hide BrokenAt;
    if i < |ms| && !BrokenAt(ms, i) {
      FirstBreakIsFirst(ms, i + 1);
    }
  }

  /** Validation passes exactly when the chain is coherent from the graph's architecture and ends within the ledger. */
  lemma ValidationIff(entries: seq<Entry>, a: Architecture, ms: seq<Migration>)
    ensures ValidateMigrations(entries, a, ms).0 == Ok <==>
              && ChainFrom(a, ms)
              && (ms != [] ==> if entries == [] then ms[|ms| - 1].boundary == 0
                               else entries[|entries| - 1].readable &&
                                    ms[|ms| - 1].boundary <= entries[|entries| - 1].id)
  {
    hide ValidMigration;
    if ms != [] {
      FirstBreakIsFirst(ms, 0);
      ChainIffUnbroken(ms);
    }
  }

  lemma ChainIffUnbroken(ms: seq<Migration>)
    ensures Chain(ms) <==> forall k :: 0 <= k < |ms| ==> !BrokenAt(ms, k)
  {
    hide ValidMigration;
    if forall k :: 0 <= k < |ms| ==> !BrokenAt(ms, k) {
      forall i | 0 <= i < |ms|
        ensures ValidMigration(ms[i])
        ensures i > 0 ==> ms[i - 1].target == ms[i].source && ms[i - 1].boundary <= ms[i].boundary
      {
        assert !BrokenAt(ms, i);
      }
    }
  }

  /** Apply the migrations at the front whose boundary has just been passed. */
  function ApplyMigrations<R>(l: Learner<R>, ms: seq<Migration>, boundary: nat, report: Report)
    : (Result<R>, seq<Migration>)
    requires Fits(l.net)
    decreases |ms|
  {
    if ms == [] || ms[0].boundary != boundary then (Result(Ok, l, report), ms)
    else if !CanExpand(l.net, ms[0]) then (Result(MigrationError, l, report.(failedAtId := boundary)), ms)
    else ApplyMigrations(l.(net := Expand(l.net, ms[0])), ms[1..], boundary,
                         report.(migrations := report.migrations + 1))
  }

  /** One entry's outcome, applied. */
  function ApplyEntry<R>(core: Core<R>, e: Entry, l: Learner<R>, report: Report): Result<R> {
    match e.outcome
    case Learned =>
      if e.probeOk && e.payload == [] && e.released then
        Result(Ok, l, report.(released := report.released + 1))
      else if !e.probeOk || e.payload == [] || !e.payloadOk then
        Result(FormatError, l, report.(failedAtId := e.id))
      else (
        match core.observe(l, e)
        case Refused(status) => Result(status, l, report.(failedAtId := e.id))
        case Done(observed) => (
          match core.mirror(observed, e)
          case Refused(status) => Result(status, observed, report.(failedAtId := e.id))
          case Done(mirrored) => Result(Ok, mirrored, report.(replayed := report.replayed + 1)))
      )
    case Skipped => (
      match core.mirror(l, e)
      case Refused(status) => Result(status, l, report.(failedAtId := e.id))
      case Done(mirrored) => Result(Ok, mirrored, report.(mirrored := report.mirrored + 1))
    )
    case Pending => Result(Ok, l, report.(pending := report.pending + 1))
    case Failed => Result(Ok, l, report.(failed := report.failed + 1))
    case Withdrawn => Result(Ok, l, report.(withdrawn := report.withdrawn + 1))
    case Unknown(_) => Result(FormatError, l, report.(failedAtId := e.id))
  }

  /** The checks made before an entry's outcome is looked at. */
  function Precheck(e: Entry, position: nat, ms: seq<Migration>, report: Report): (Status, Report) {
    if !e.readable then (FormatError, report.(failedAtId := position + 1))
    else if ms != [] && ms[0].boundary < e.id then (MigrationError, report.(failedAtId := ms[0].boundary))
    else if !SchemaCanReplay(e.schema) then (SchemaError, report.(failedAtId := e.id, failedSchema := e.schema))
    else if !e.contextOk then (FormatError, report.(failedAtId := e.id))
    else (Ok, report)
  }

  /** The loop over the remaining entries with the migrations still to apply. */
  ghost function Loop<R(!new)>(core: Core<R>, entries: seq<Entry>, position: nat, ms: seq<Migration>, l: Learner<R>,
                               report: Report): Result<R>
    requires KeepsTopology(core) && Fits(l.net)
    decreases |entries|
  {
    if entries == [] then
      if ms == [] then Result(Ok, l, report)
      else Result(MigrationError, l, report.(failedAtId := ms[0].boundary))
    else
      var e := entries[0];
      var (status, checked) := Precheck(e, position, ms, report);
      if status != Ok then Result(status, l, checked)
      else
        var applied := ApplyEntry(core, e, l, report);
        ApplyEntryKeeps(core, e, l, report);
        if applied.status != Ok then applied
        else
          var (migrated, left) := ApplyMigrations(applied.learner, ms, e.id, applied.report);
          ApplyMigrationsKeeps(applied.learner, ms, e.id, applied.report);
          if migrated.status != Ok then migrated
          else Loop(core, entries[1..], position + 1, left, migrated.learner, migrated.report)
  }

  ghost function Replay<R(!new)>(core: Core<R>, entries: seq<Entry>, ms: seq<Migration>, l: Learner<R>): Result<R>
    requires KeepsTopology(core) && Fits(l.net)
  {
    var (status, blamed) := ValidateMigrations(entries, l.net.architecture, ms);
    if status != Ok then Result(status, l, EMPTY_REPORT.(failedAtId := blamed))
    else
      var (migrated, left) := ApplyMigrations(l, ms, 0, EMPTY_REPORT);
      ApplyMigrationsKeeps(l, ms, 0, EMPTY_REPORT);
      if migrated.status != Ok then migrated
      else Loop(core, entries, 0, left, migrated.learner, migrated.report)
  }

  lemma ApplyEntryKeeps<R(!new)>(core: Core<R>, e: Entry, l: Learner<R>, report: Report)
    requires KeepsTopology(core) && Fits(l.net)
    ensures var r := ApplyEntry(core, e, l, report);
            && Fits(r.learner.net)
            && r.learner.net.architecture == l.net.architecture && r.learner.net.history == l.net.history
  {
    hide Fits;
    assert Kept(l, core.observe(l, e));
    assert Kept(l, core.mirror(l, e));
    if core.observe(l, e).Done? {
      assert Kept(core.observe(l, e).learner, core.mirror(core.observe(l, e).learner, e));
    }
  }

  lemma {:induction false} ApplyMigrationsKeeps<R>(l: Learner<R>, ms: seq<Migration>, boundary: nat, report: Report)
    requires Fits(l.net)
    ensures Fits(ApplyMigrations(l, ms, boundary, report).0.learner.net)
    decreases |ms|
  {
    hide Fits, CanExpand, Expand;
    if ms != [] && ms[0].boundary == boundary && CanExpand(l.net, ms[0]) {
      ApplyMigrationsKeeps(l.(net := Expand(l.net, ms[0])), ms[1..], boundary,
                           report.(migrations := report.migrations + 1));
    }
  }
}
