/** The replay loop as the core runs it, over a learner that it updates in place. */
module Replay {
  import opened NeuralLayout
  import opened NeuralRoles
  import opened NeuralExpansion
  import opened ReplaySpec
  import opened ReplayLaws
  import opened ReplayReport

  class Target<R> {
    var learner: Learner<R>

    constructor (learner: Learner<R>)
      ensures this.learner == learner
    {
      this.learner := learner;
    }
  }

  /** Check the whole chain before any observation is replayed. */
  method ValidateReplayMigrations(ledger: seq<Entry>, architecture: Architecture, ms: seq<Migration>)
    returns (status: Status, blamed: nat)
    ensures (status, blamed) == ValidateMigrations(ledger, architecture, ms)
  {
    if |ms| == 0 {
      return Ok, 0;
    }
    if architecture != ms[0].source {
      return MigrationError, ms[0].boundary;
    }
    var previous := 0;
    for i := 0 to |ms|
      invariant FirstBreak(ms, 0) == FirstBreak(ms, i)
      invariant i > 0 ==> previous == ms[i - 1].boundary
    {
      var valid := Validate(ms[i]);
      if !valid || (i != 0 && ms[i].boundary < previous) || (i != 0 && ms[i - 1].target != ms[i].source) {
        assert BrokenAt(ms, i);
        return MigrationError, ms[i].boundary;
      }
      previous := ms[i].boundary;
    }
    if |ledger| == 0 {
      return if previous == 0 then Ok else MigrationError, previous;
    }
    var last := ledger[|ledger| - 1];
    if !last.readable {
      return FormatError, 0;
    }
    if previous <= last.id {
      return Ok, 0;
    }
    return MigrationError, previous;
  }

  /** Apply every migration bound to the boundary, advancing the index past them. */
  method ApplyReplayMigrations<R>(target: Target<R>, ms: seq<Migration>, index: nat, boundary: nat, report: Report)
    returns (status: Status, index': nat, report': Report)
    requires index <= |ms| && Fits(target.learner.net)
    modifies target
    ensures index <= index' <= |ms|
    ensures (Result(status, target.learner, report'), ms[index'..]) ==
            old(ApplyMigrations(target.learner, ms[index..], boundary, report))
    ensures Fits(target.learner.net)
  {
    hide Fits, CanExpand, Expand;
    index', report' := index, report;
    while index' < |ms| && ms[index'].boundary == boundary
      invariant index <= index' <= |ms| && Fits(target.learner.net)
      invariant ApplyMigrations(target.learner, ms[index'..], boundary, report') ==
                old(ApplyMigrations(target.learner, ms[index..], boundary, report))
    {
      var m := ms[index'];
      assert ms[index'..][0] == m && ms[index'..][1..] == ms[index' + 1..];
      if !MayExpand(target.learner.net, m) {
        return MigrationError, index', report'.(failedAtId := boundary);
      }
      target.learner := target.learner.(net := Expand(target.learner.net, m));
      index' := index' + 1;
      report' := report'.(migrations := report'.migrations + 1);
    }
    status := Ok;
  }

  predicate MayExpand(net: GraphValue, m: Migration)
    ensures MayExpand(net, m) == CanExpand(net, m)
  {
    CanExpand(net, m)
  }

  /** One entry's outcome, applied to the learner. */
  method ApplyOutcome<R(!new)>(core: Core<R>, target: Target<R>, e: Entry, report: Report)
    returns (status: Status, report': Report)
    requires KeepsTopology(core) && Fits(target.learner.net)
    modifies target
    ensures Result(status, target.learner, report') == old(ApplyEntry(core, e, target.learner, report))
  {
    hide Fits;
    assert Kept(target.learner, core.observe(target.learner, e));
    assert Kept(target.learner, core.mirror(target.learner, e));
    status, report' := Ok, report;
    match e.outcome {
      case Learned =>
        if e.probeOk && |e.payload| == 0 && e.released {
          return Ok, report.(released := report.released + 1);
        }
        if !e.probeOk || |e.payload| == 0 || !e.payloadOk {
          return FormatError, report.(failedAtId := e.id);
        }
        var observed := core.observe(target.learner, e);
        if observed.Refused? {
          return observed.status, report.(failedAtId := e.id);
        }
        target.learner := observed.learner;
        assert Kept(target.learner, core.mirror(target.learner, e));
        var mirrored := core.mirror(target.learner, e);
        if mirrored.Refused? {
          return mirrored.status, report.(failedAtId := e.id);
        }
        target.learner := mirrored.learner;
        report' := report.(replayed := report.replayed + 1);
      case Skipped =>
        var mirrored := core.mirror(target.learner, e);
        if mirrored.Refused? {
          return mirrored.status, report.(failedAtId := e.id);
        }
        target.learner := mirrored.learner;
        report' := report.(mirrored := report.mirrored + 1);
      case Pending =>
        report' := report.(pending := report.pending + 1);
      case Failed =>
        report' := report.(failed := report.failed + 1);
      case Withdrawn =>
        report' := report.(withdrawn := report.withdrawn + 1);
      case Unknown(_) =>
        return FormatError, report.(failedAtId := e.id);
    }
  }

  /**
   Replay a ledger with its migrations. The result is the specified one, and on success the
   learner is what the fold over the event list makes of it and each counter is the number of
   ledger entries of its own kind.
   */
  method ReplayLedger<R(!new)>(core: Core<R>, ledger: seq<Entry>, target: Target<R>, ms: seq<Migration>)
    returns (status: Status, report: Report)
    requires KeepsTopology(core) && Fits(target.learner.net)
    modifies target
    ensures Result(status, target.learner, report) == old(ReplaySpec.Replay(core, ledger, ms, target.learner))
    ensures Ordered(ledger) && status == Ok ==>
              && old(Fold(core, Events(ledger, ms), target.learner)) == Done(target.learner)
              && Counted(report) == |ledger| && report.migrations == |ms|
    ensures status == Ok ==> CountsEach(report, ledger)
  {
    hide CountsEach;
    hide Fits, KeepsTopology, ApplyEntry, ApplyMigrations, ValidateMigrations, Fold, Events, Counted;
    ghost var start := target.learner;
    SuccessCountsEach(core, ledger, ms, start);
    if Ordered(ledger) {
      ReplayIsFold(core, ledger, ms, start);
    }
    report := EMPTY_REPORT;
    var blamed;
    status, blamed := ValidateReplayMigrations(ledger, target.learner.net.architecture, ms);
    if status != Ok {
      return status, EMPTY_REPORT.(failedAtId := blamed);
    }
    var index;
    assert ms[0..] == ms;
    status, index, report := ApplyReplayMigrations(target, ms, 0, 0, report);
    if status != Ok {
      return;
    }
    assert ledger[0..] == ledger;
    for i := 0 to |ledger|
      invariant status == Ok && index <= |ms| && Fits(target.learner.net)
      invariant Loop(core, ledger[i..], i, ms[index..], target.learner, report) ==
                ReplaySpec.Replay(core, ledger, ms, start)
    {
      var e := ledger[i];
      assert ledger[i..][0] == e && ledger[i..][1..] == ledger[i + 1..];
      ApplyEntryKeeps(core, e, target.learner, report);
      if !e.readable {
        return FormatError, report.(failedAtId := i + 1);
      }
      if index < |ms| && ms[index].boundary < e.id {
        return MigrationError, report.(failedAtId := ms[index].boundary);
      }
      if !SchemaCanReplay(e.schema) {
        return SchemaError, report.(failedAtId := e.id, failedSchema := e.schema);
      }
      if !e.contextOk {
        return FormatError, report.(failedAtId := e.id);
      }
      status, report := ApplyOutcome(core, target, e, report);
      if status != Ok {
        return;
      }
      status, index, report := ApplyReplayMigrations(target, ms, index, e.id, report);
      if status != Ok {
        return;
      }
    }
    if index != |ms| {
      return MigrationError, report.(failedAtId := ms[index].boundary);
    }
  }
}
