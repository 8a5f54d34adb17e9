/**
 The firehose cursor: sequence numbers advance one event at a time, a gap pauses the stream, and
 only a verified repository resynchronisation resumes it. Repository revisions are kept apart
 from the sequence.
 */
module Cursor {
  import opened Options
  import opened Bytes
  import opened EvidenceCodec

  datatype Result = Initialized | Advanced | Duplicate | Gap | Rewind | Refused

  datatype Revision = Revision(repo: string, revision: string)

  datatype CursorState = CursorState(
    lastSequence: u64, repo: string, repoRevision: string,
    revisions: seq<Revision>, resyncRequired: bool)

  const EMPTY := CursorState(0, "", "", [], false)

  // ---------------------------------------------------------------- identifiers

  predicate DidChar(c: char) {
    'a' <= c <= 'z' || 'A' <= c <= 'Z' || '0' <= c <= '9' || c == '.' || c == '_' || c == ':' || c == '%' || c == '-'
  }

  predicate MethodChar(c: char) {
    'a' <= c <= 'z' || '0' <= c <= '9' || c == '-'
  }

  predicate IsDid(s: string) {
    && 8 < |s| <= 2048 && s[..4] == "did:" && s[|s| - 1] != ':'
    && (forall i :: 0 <= i < |s| ==> DidChar(s[i]))
    && exists m :: 4 < m < |s| - 1 && s[m] == ':' && forall i :: 4 <= i < m ==> MethodChar(s[i])
  }

  predicate IsTid(s: string) {
    |s| == 13 && forall i :: 0 <= i < |s| ==> '2' <= s[i] <= '7' || 'a' <= s[i] <= 'z'
  }

  predicate TidChar(c: char) {
    c in "234567" || c in "abcdefghijklmnopqrstuvwxyz"
  }

  /** A timestamp identifier has thirteen digits of the sortable base-32 alphabet. */
  lemma TidIff(s: string)
    ensures IsTid(s) <==> |s| == 13 && forall i :: 0 <= i < |s| ==> TidChar(s[i])
  {
    forall i | 0 <= i < |s|
      ensures TidChar(s[i]) <==> ('2' <= s[i] <= '7' || 'a' <= s[i] <= 'z')
    {
    }
  }

  /** The method's identifier may fill 2048 bytes, is not empty and does not end in a colon. */
  lemma DidLengths(id: string)
    requires forall i :: 0 <= i < |id| ==> DidChar(id[i])
    ensures IsDid("did:plc:" + id) <==> 0 < |id| <= 2040 && id[|id| - 1] != ':'
  {
    var s := "did:plc:" + id;
    assert s[..4] == "did:" && s[7] == ':';
    assert forall i :: 8 <= i < |s| ==> s[i] == id[i - 8];
  }

  // ---------------------------------------------------------------- revisions

  function Find(rs: seq<Revision>, repo: string): (i: nat)
    ensures i <= |rs|
    ensures i < |rs| ==> rs[i].repo == repo
    ensures forall j :: 0 <= j < i ==> rs[j].repo != repo
  {
    if rs == [] || rs[0].repo == repo then 0 else 1 + Find(rs[1..], repo)
  }

  function Remember(rs: seq<Revision>, repo: string, revision: string): seq<Revision> {
    if repo == "" || revision == "" then rs
    else
      var i := Find(rs, repo);
      if i == |rs| then rs + [Revision(repo, revision)] else rs[i := Revision(repo, revision)]
  }

  function RevisionFor(s: CursorState, repo: string): Option<string> {
    var i := Find(s.revisions, repo);
    if i == |s.revisions| then None else Some(s.revisions[i].revision)
  }

  predicate Unique(rs: seq<Revision>) {
    forall i, j :: 0 <= i < j < |rs| ==> rs[i].repo != rs[j].repo
  }

  // ---------------------------------------------------------------- the reducer

  function SequenceResult(s: CursorState, sequence: u64, contiguous: bool): Result {
    if sequence == 0 then Refused
    else if s.lastSequence == 0 then Initialized
    else if s.resyncRequired then Gap
    else if sequence == s.lastSequence then Duplicate
    else if sequence < s.lastSequence then Rewind
    else if contiguous && sequence != (s.lastSequence + 1) % 0x1_0000_0000_0000_0000 then Gap
    else Advanced
  }

  function AfterSequence(s: CursorState, sequence: u64, contiguous: bool): CursorState {
    match SequenceResult(s, sequence, contiguous)
    case Initialized => s.(lastSequence := sequence, resyncRequired := false)
    case Advanced => s.(lastSequence := sequence)
    case Gap => s.(resyncRequired := true)
    case _ => s
  }

  function StreamResult(s: CursorState, sequence: u64, repo: string, revision: string, contiguous: bool): Result {
    if !IsDid(repo) || !IsTid(revision) then Refused else SequenceResult(s, sequence, contiguous)
  }

  function AfterStream(s: CursorState, sequence: u64, repo: string, revision: string, contiguous: bool): CursorState {
    if !IsDid(repo) || !IsTid(revision) then s else
      var t := AfterSequence(s, sequence, contiguous);
      if SequenceResult(s, sequence, contiguous) in {Initialized, Advanced} then
        t.(repo := repo, repoRevision := revision, revisions := Remember(t.revisions, repo, revision))
      else t
  }

  predicate CanResync(s: CursorState, sequence: u64, repo: string, revision: string, v: Verification) {
    s.resyncRequired && sequence >= s.lastSequence && IsDid(repo) && IsTid(revision) && v == Verified
  }

  function AfterResync(s: CursorState, sequence: u64, repo: string, revision: string, v: Verification): CursorState {
    if !CanResync(s, sequence, repo, revision, v) then s else
      CursorState(sequence, repo, revision, Remember(s.revisions, repo, revision), false)
  }

  datatype Event =
    | Sequence(sequence: u64, contiguous: bool)
    | Stream(sequence: u64, repo: string, revision: string, contiguous: bool)
    | Resync(sequence: u64, repo: string, revision: string, verification: Verification)

  function After(s: CursorState, e: Event): CursorState {
    match e
    case Sequence(n, c) => AfterSequence(s, n, c)
    case Stream(n, repo, revision, c) => AfterStream(s, n, repo, revision, c)
    case Resync(n, repo, revision, v) => AfterResync(s, n, repo, revision, v)
  }

  /** The event moved the cursor: an accepted stream position or a committed resynchronisation. */
  predicate Accepted(s: CursorState, e: Event) {
    match e
    case Sequence(n, c) => SequenceResult(s, n, c) in {Initialized, Advanced}
    case Stream(n, repo, revision, c) => StreamResult(s, n, repo, revision, c) in {Initialized, Advanced}
    case Resync(n, repo, revision, v) => CanResync(s, n, repo, revision, v)
  }

  function Run(s: CursorState, es: seq<Event>): CursorState {
    if es == [] then s else After(Run(s, es[..|es| - 1]), es[|es| - 1])
  }

  /** The events of a run that moved the cursor, in order. */
  function AcceptedLog(es: seq<Event>): seq<Event> {
    if es == [] then [] else
      var before := es[..|es| - 1];
      var e := es[|es| - 1];
      AcceptedLog(before) + if Accepted(Run(EMPTY, before), e) then [e] else []
  }

  /** The revision carried by the last event of a log that names the repository. */
  function LatestRevision(log: seq<Event>, repo: string): Option<string> {
    if log == [] then None else
      var e := log[|log| - 1];
      if !e.Sequence? && e.repo == repo then Some(e.revision) else LatestRevision(log[..|log| - 1], repo)
  }

  // ---------------------------------------------------------------- invariants of every run

  predicate Coherent(s: CursorState) {
    (s.resyncRequired ==> s.lastSequence != 0) && Unique(s.revisions)
  }

  lemma RememberFacts(rs: seq<Revision>, repo: string, revision: string)
    requires Unique(rs)
    ensures Unique(Remember(rs, repo, revision))
  {
  }

  lemma {:induction false} FindIsTheOne(rs: seq<Revision>, repo: string, i: nat)
    requires Unique(rs) && i < |rs| && rs[i].repo == repo
    ensures Find(rs, repo) == i
  {
  }

  /** Remembering a revision changes what is found for its own repository and for no other. */
  lemma RememberThenFind(s: CursorState, repo: string, revision: string, other: string)
    requires Unique(s.revisions) && repo != "" && revision != ""
    ensures RevisionFor(s.(revisions := Remember(s.revisions, repo, revision)), other) ==
            if other == repo then Some(revision) else RevisionFor(s, other)
  {
    var rs := s.revisions;
    var rs' := Remember(rs, repo, revision);
    RememberFacts(rs, repo, revision);
    var i, j := Find(rs, repo), Find(rs, other);
    assert rs'[i] == Revision(repo, revision);
    FindIsTheOne(rs', repo, i);
    if other != repo && j < |rs| {
      assert rs'[j] == rs[j];
      FindIsTheOne(rs', other, j);
    }
  }

  /**
   One event: the sequence never moves back; while paused, nothing changes unless a verified
   resynchronisation is committed; and an event that is not accepted can only raise the pause.
   */
  lemma EventFacts(s: CursorState, e: Event)
    requires Coherent(s)
    ensures Coherent(After(s, e))
    ensures After(s, e).lastSequence >= s.lastSequence
    ensures s.resyncRequired && After(s, e) != s ==>
              e.Resync? && e.verification == Verified && Accepted(s, e) && !After(s, e).resyncRequired
    ensures !Accepted(s, e) ==> After(s, e) == s || After(s, e) == s.(resyncRequired := true)
    ensures Accepted(s, e) ==> After(s, e).lastSequence == e.sequence && !After(s, e).resyncRequired
  {
    if !e.Sequence? {
      RememberFacts(s.revisions, e.repo, e.revision);
    }
  }

  predicate WellFormed(e: Event) {
    e.Stream? ==> IsDid(e.repo) && IsTid(e.revision)
  }

  /** What the cursor answers to an observed position. */
  function Answer(s: CursorState, e: Event): Result
    requires !e.Resync?
  {
    match e
    case Sequence(n, c) => SequenceResult(s, n, c)
    case Stream(n, repo, revision, c) => StreamResult(s, n, repo, revision, c)
  }

  /** Which answer an observed position gets, by its fields and the cursor's. */
  lemma AnswerIs(s: CursorState, e: Event)
    requires !e.Resync? && Coherent(s)
    ensures var last, n := s.lastSequence, e.sequence;
      && (Answer(s, e) == Refused <==> n == 0 || !WellFormed(e))
      && (Answer(s, e) == Initialized <==> n > 0 && WellFormed(e) && last == 0)
      && (Answer(s, e) == Duplicate <==> n > 0 && WellFormed(e) && n == last && !s.resyncRequired)
      && (Answer(s, e) == Rewind <==> 0 < n < last && WellFormed(e) && !s.resyncRequired)
      && (Answer(s, e) == Advanced <==> 0 < last < n && WellFormed(e) && !s.resyncRequired
                                        && (e.contiguous ==> n == last + 1))
      && (Answer(s, e) == Gap <==> n > 0 && WellFormed(e) && last > 0
                                   && (s.resyncRequired || (e.contiguous && n > last + 1)))
  {
    hide IsDid, IsTid;
  }

  /** What each answer leaves: a gap the pause, an accepted position itself, any other answer nothing. */
  lemma AnswerLeaves(s: CursorState, e: Event)
    requires !e.Resync? && Coherent(s)
    ensures var t := After(s, e);
      && (Answer(s, e) == Gap ==> t == s.(resyncRequired := true))
      && (Answer(s, e) in {Refused, Duplicate, Rewind} ==> t == s)
      && (Answer(s, e) in {Initialized, Advanced} ==>
           && t.lastSequence == e.sequence && !t.resyncRequired
           && (e.Sequence? ==> t == s.(lastSequence := e.sequence))
           && (e.Stream? ==> t.repo == e.repo && t.repoRevision == e.revision
                             && t.revisions == Remember(s.revisions, e.repo, e.revision)))
  {
    hide IsDid, IsTid;
  }

  /** The event skips past the number the cursor expects next. */
  predicate Pauses(s: CursorState, e: Event) {
    !e.Resync? && e.contiguous && WellFormed(e) && s.lastSequence != 0 && e.sequence > s.lastSequence + 1
  }

  /** A running cursor is paused by exactly the well-formed contiguous events that skip a number. */
  lemma PausesIff(s: CursorState, e: Event)
    requires Coherent(s) && !s.resyncRequired
    ensures After(s, e).resyncRequired <==> Pauses(s, e)
  {
    hide IsDid, IsTid;
  }

  lemma {:induction false} RunFacts(s: CursorState, es: seq<Event>)
    requires Coherent(s)
    ensures Coherent(Run(s, es))
    ensures Run(s, es).lastSequence >= s.lastSequence
  {
    if es != [] {
      RunFacts(s, es[..|es| - 1]);
      EventFacts(Run(s, es[..|es| - 1]), es[|es| - 1]);
    }
  }

  /** While a run stays paused and no verified resynchronisation is committed, no field changes. */
  lemma {:induction false} PausedUntilResync(s: CursorState, es: seq<Event>)
    requires Coherent(s) && s.resyncRequired
    requires forall e :: e in es && e.Resync? ==>
               e.verification != Verified || e.sequence < s.lastSequence || !IsDid(e.repo) || !IsTid(e.revision)
    ensures Run(s, es) == s
  {
    if es != [] {
      var before := es[..|es| - 1];
      forall e | e in before
        ensures e in es
      {
        var i :| 0 <= i < |before| && before[i] == e;
        assert es[i] == e;
      }
      PausedUntilResync(s, before);
      assert es[|es| - 1] in es;
      EventFacts(s, es[|es| - 1]);
    }
  }

  /** The event is a resynchronisation that a cursor paused at `last` commits. */
  predicate Resumes(last: u64, e: Event) {
    e.Resync? && e.verification == Verified && e.sequence >= last && IsDid(e.repo) && IsTid(e.revision)
  }

  /** Event `i` of the run paused the cursor, and none after it resumes it. */
  predicate PausedSince(es: seq<Event>, i: nat)
    requires i < |es|
  {
    var s := Run(EMPTY, es[..i]);
    !s.resyncRequired && Pauses(s, es[i]) && forall j :: i < j < |es| ==> !Resumes(s.lastSequence, es[j])
  }

  /** From the skip on nothing changes but the pause, until an acceptable resynchronisation. */
  lemma {:induction false} PausedSinceKeeps(es: seq<Event>, i: nat)
    requires i < |es| && PausedSince(es, i)
    ensures Run(EMPTY, es) == Run(EMPTY, es[..i]).(resyncRequired := true)
  {
    hide IsDid, IsTid, Unique, WellFormed;
    var before, e := es[..|es| - 1], es[|es| - 1];
    RunFacts(EMPTY, before);
    if i == |es| - 1 {
      PausesIff(Run(EMPTY, before), e);
      AnswerLeaves(Run(EMPTY, before), e);
      AnswerIs(Run(EMPTY, before), e);
    } else {
      assert before[..i] == es[..i];
      PausedSinceKeeps(before, i);
      PausedStays(Run(EMPTY, before), e);
    }
  }

  lemma PausedStays(s: CursorState, e: Event)
    requires Coherent(s) && s.resyncRequired
    ensures !Resumes(s.lastSequence, e) ==> After(s, e) == s
    ensures Resumes(s.lastSequence, e) ==> !After(s, e).resyncRequired
  {
    EventFacts(s, e);
  }

  /**
   A run leaves the cursor paused if and only if one of its events skipped a number on a contiguous
   stream while the cursor was running, and no acceptable resynchronisation came after it.
   */
  lemma {:induction false} PausedIff(es: seq<Event>)
    ensures Run(EMPTY, es).resyncRequired <==> exists i :: 0 <= i < |es| && PausedSince(es, i)
  {
    if es != [] && Run(EMPTY, es).resyncRequired {
      PausedHasCause(es);
    }
    forall i | 0 <= i < |es| && PausedSince(es, i)
      ensures Run(EMPTY, es).resyncRequired
    {
      PausedSinceKeeps(es, i);
    }
  }

  lemma {:induction false} PausedHasCause(es: seq<Event>)
    requires es != [] && Run(EMPTY, es).resyncRequired
    ensures exists i :: 0 <= i < |es| && PausedSince(es, i)
  {
    hide IsDid, IsTid, Unique, WellFormed, After, Resumes, Pauses;
    var before, e := es[..|es| - 1], es[|es| - 1];
    var s := Run(EMPTY, before);
    RunFacts(EMPTY, before);
    if s.resyncRequired {
      PausedHasCause(before);
      var i :| 0 <= i < |before| && PausedSince(before, i);
      PausedSinceKeeps(before, i);
      PausedStays(s, e);
      assert before[..i] == es[..i];
      assert PausedSince(es, i);
    } else {
      PausesIff(s, e);
      assert PausedSince(es, |es| - 1);
    }
  }

  /** An accepted event sets the revision of the repository it names and of no other. */
  lemma AcceptedSetsRevision(s: CursorState, e: Event, repo: string)
    requires Coherent(s) && Accepted(s, e)
    ensures RevisionFor(After(s, e), repo) ==
            if !e.Sequence? && e.repo == repo then Some(e.revision) else RevisionFor(s, repo)
  {
    if !e.Sequence? {
      RememberThenFind(s, e.repo, e.revision, repo);
    }
  }

  /**
   Over every run from the empty cursor, each repository is remembered once, and the revision
   found for it is the one carried by the latest accepted stream event or resynchronisation.
   */
  lemma {:induction false} RevisionIsTheLatest(es: seq<Event>, repo: string)
    ensures Unique(Run(EMPTY, es).revisions)
    ensures RevisionFor(Run(EMPTY, es), repo) == LatestRevision(AcceptedLog(es), repo)
  {
    hide After, Accepted, Find;
    RunFacts(EMPTY, es);
    if es != [] {
      var before, e := es[..|es| - 1], es[|es| - 1];
      var s := Run(EMPTY, before);
      RevisionIsTheLatest(before, repo);
      RunFacts(EMPTY, before);
      var log := AcceptedLog(before);
      if Accepted(s, e) {
        assert (log + [e])[..|log|] == log;
        AcceptedSetsRevision(s, e, repo);
      } else {
        assert log + [] == log;
        EventFacts(s, e);
      }
    } else {
      assert Find([], repo) == 0;
    }
  }

  /** Every event of the run comes from a contiguous stream, or is a resynchronisation. */
  predicate Contiguous(es: seq<Event>) {
    forall e :: e in es ==> e.Resync? || e.contiguous
  }

  /** Each entry follows its predecessor by one, except that a resynchronisation may jump forward. */
  predicate Consecutive(log: seq<Event>) {
    forall i :: 0 < i < |log| ==>
      if log[i].Resync? then log[i].sequence >= log[i - 1].sequence
      else log[i].sequence == log[i - 1].sequence + 1
  }

  /**
   On contiguous streams the accepted sequence numbers are consecutive from the start or from the
   last resynchronisation, and the cursor stands at the last of them.
   */
  lemma {:induction false} ContiguousRunsAreGapFree(es: seq<Event>)
    requires Contiguous(es)
    ensures Consecutive(AcceptedLog(es))
    ensures var log := AcceptedLog(es);
            Run(EMPTY, es).lastSequence == if log == [] then 0 else log[|log| - 1].sequence
  {
    hide After, Accepted, Unique, Coherent, Contiguous, Consecutive;
    if es == [] {
      NothingIsConsecutive();
    } else {
      var before, e := es[..|es| - 1], es[|es| - 1];
      LastContiguous(es);
      ContiguousRunsAreGapFree(before);
      RunFacts(EMPTY, before);
      var log, s := AcceptedLog(before), Run(EMPTY, before);
      EventFacts(s, e);
      if Accepted(s, e) {
        AcceptedFollows(s, e);
        AcceptedIsPositive(before);
        LogGrows(log, e);
      } else {
        assert log + [] == log;
      }
    }
  }

  lemma NothingIsConsecutive()
    ensures Consecutive([]) && Coherent(EMPTY)
  {
  }

  lemma LastContiguous(es: seq<Event>)
    requires Contiguous(es) && es != []
    ensures Contiguous(es[..|es| - 1]) && (es[|es| - 1].Resync? || es[|es| - 1].contiguous)
  {
    assert es[|es| - 1] in es;
    assert forall x :: x in es[..|es| - 1] ==> x in es;
  }

  lemma LogGrows(log: seq<Event>, e: Event)
    requires Consecutive(log)
    requires log != [] ==>
               var last := log[|log| - 1].sequence;
               if e.Resync? then e.sequence >= last else e.sequence == last + 1
    ensures Consecutive(log + [e])
  {
  }

  lemma AcceptedFollows(s: CursorState, e: Event)
    requires Coherent(s) && Accepted(s, e) && (e.Resync? || e.contiguous)
    ensures e.sequence > 0
    ensures s.lastSequence != 0 ==>
              if e.Resync? then e.sequence >= s.lastSequence else e.sequence == s.lastSequence + 1
  {
  }

  lemma {:induction false} AcceptedIsPositive(es: seq<Event>)
    ensures forall i :: 0 <= i < |AcceptedLog(es)| ==> AcceptedLog(es)[i].sequence > 0
  {
    if es != [] {
      AcceptedIsPositive(es[..|es| - 1]);
      RunFacts(EMPTY, es[..|es| - 1]);
    }
  }

  // ---------------------------------------------------------------- resynchronisation

  datatype ResyncPlan = ResyncPlan(
    required: bool, repo: string, fromSequence: u64, maxRecords: nat, reason: string)

  const GAP_REASON := "firehose sequence gap requires bounded repository resync"

  function PlanResync(s: CursorState, maxRecords: nat): ResyncPlan {
    if !s.resyncRequired then ResyncPlan(false, "", 0, 0, "")
    else ResyncPlan(true, s.repo, s.lastSequence, if maxRecords < 1 then 1 else maxRecords, GAP_REASON)
  }

  /**
   Following the plan: committing the planned resynchronisation succeeds exactly for a verified,
   well-formed revision at or after the planned sequence, and then the cursor stands at it and the
   stream resumes at the very next number and at no other; otherwise nothing changes.
   */
  lemma PlannedResyncResumes(s: CursorState, sequence: u64, repo: string, revision: string, v: Verification,
                             maxRecords: nat, next: u64)
    requires Coherent(s) && PlanResync(s, maxRecords).required
    ensures var plan := PlanResync(s, maxRecords);
            var t := AfterResync(s, sequence, repo, revision, v);
            && plan.repo == s.repo && plan.fromSequence == s.lastSequence
            && plan.maxRecords >= 1 && (maxRecords >= 1 ==> plan.maxRecords == maxRecords)
            && (!t.resyncRequired <==>
                 sequence >= plan.fromSequence && IsDid(repo) && IsTid(revision) && v == Verified)
            && (t.resyncRequired ==> t == s)
            && (!t.resyncRequired ==>
                 t.lastSequence == sequence && t.repo == repo && t.repoRevision == revision &&
                 RevisionFor(t, repo) == Some(revision) &&
                 (SequenceResult(t, next, true) == Advanced <==> next == sequence + 1))
  {
    if CanResync(s, sequence, repo, revision, v) {
      RememberThenFind(s, repo, revision, repo);
    }
  }

  // ---------------------------------------------------------------- the cursor object

  class Cursor {
    var lastSequence: u64
    var repo: string
    var repoRevision: string
    var revisions: seq<Revision>
    var resyncRequired: bool

    function State(): CursorState
      reads this
    {
      CursorState(lastSequence, repo, repoRevision, revisions, resyncRequired)
    }

    constructor ()
      ensures State() == EMPTY
    {
      lastSequence, repo, repoRevision, revisions, resyncRequired := 0, "", "", [], false;
    }

    method RememberRevision(repo: string, revision: string)
      modifies this`revisions
      ensures revisions == Remember(old(revisions), repo, revision)
    {
      if repo == "" || revision == "" {
        return;
      }
      var i := 0;
      while i < |revisions| && revisions[i].repo != repo
        invariant 0 <= i <= |revisions|
        invariant forall j :: 0 <= j < i ==> revisions[j].repo != repo
      {
        i := i + 1;
      }
      if i == |revisions| {
        revisions := revisions + [Revision(repo, revision)];
      } else {
        revisions := revisions[i := Revision(repo, revision)];
      }
    }

    method ObserveSequence(sequence: u64, contiguous: bool) returns (r: Result)
      modifies this
      ensures r == SequenceResult(old(State()), sequence, contiguous)
      ensures State() == AfterSequence(old(State()), sequence, contiguous)
    {
      if sequence == 0 {
        return Refused;
      }
      if lastSequence == 0 {
        lastSequence := sequence;
        resyncRequired := false;
        return Initialized;
      }
      if resyncRequired {
        return Gap;
      }
      if sequence == lastSequence {
        return Duplicate;
      }
      if sequence < lastSequence {
        return Rewind;
      }
      if contiguous && sequence != (lastSequence + 1) % 0x1_0000_0000_0000_0000 {
        resyncRequired := true;
        return Gap;
      }
      lastSequence := sequence;
      return Advanced;
    }

    method ObserveStream(sequence: u64, repo: string, revision: string, contiguous: bool) returns (r: Result)
      modifies this
      ensures r == StreamResult(old(State()), sequence, repo, revision, contiguous)
      ensures State() == AfterStream(old(State()), sequence, repo, revision, contiguous)
    {
      if !IsDid(repo) || !IsTid(revision) {
        return Refused;
      }
      r := ObserveSequence(sequence, contiguous);
      if r != Initialized && r != Advanced {
        return;
      }
      this.repo := repo;
      this.repoRevision := revision;
      RememberRevision(repo, revision);
    }

    method CompleteResync(sequence: u64, repo: string, revision: string, verification: Verification)
      returns (ok: bool)
      modifies this
      ensures ok == CanResync(old(State()), sequence, repo, revision, verification)
      ensures State() == AfterResync(old(State()), sequence, repo, revision, verification)
    {
      if !resyncRequired || sequence < lastSequence || repo == "" || revision == "" ||
         !IsDid(repo) || !IsTid(revision) || verification != Verified {
        return false;
      }
      lastSequence := sequence;
      this.repo := repo;
      this.repoRevision := revision;
      RememberRevision(repo, revision);
      resyncRequired := false;
      return true;
    }
  }
}
