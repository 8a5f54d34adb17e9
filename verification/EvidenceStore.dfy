/**
 The in-memory evidence store. It is also the reference against which the durable ledger is
 proved: a plain list of records that grows by one acceptable, not yet present record at a time.
 */
module EvidenceStore {
  import opened Bytes
  import opened EvidenceCodec
  import opened EvidenceDigest

  /** The bit patterns of the doubles from 0 to 1, including negative zero; no infinity or NaN. */
  predicate ConfidenceInRange(bits: u64) {
    bits <= 0x3FF0_0000_0000_0000 || bits == 0x8000_0000_0000_0000
  }

  predicate Acceptable(e: Evidence) {
    && e.source != [] && e.eventType != [] && e.subject != [] && e.payload != []
    && !(e.sequence == 0 && e.observedAt == 0)
    && ConfidenceInRange(e.confidence)
  }

  function Digests(es: seq<Evidence>): set<Digest> {
    set e | e in es :: DigestOf(e)
  }

  predicate Accepts(es: seq<Evidence>, e: Evidence) {
    Acceptable(e) && DigestOf(e) !in Digests(es)
  }

  function Insert(es: seq<Evidence>, e: Evidence): seq<Evidence> {
    if Accepts(es, e) then es + [e] else es
  }

  function InsertAll(es: seq<Evidence>, more: seq<Evidence>): seq<Evidence>
    decreases |more|
  {
    if more == [] then es else InsertAll(Insert(es, more[0]), more[1..])
  }

  /** No two records share a digest. */
  predicate Distinct(es: seq<Evidence>) {
    forall i, j :: 0 <= i < j < |es| ==> DigestOf(es[i]) != DigestOf(es[j])
  }

  predicate AllAcceptable(es: seq<Evidence>) {
    forall e :: e in es ==> Acceptable(e)
  }

  lemma DigestsOfInsert(es: seq<Evidence>, e: Evidence)
    ensures Digests(es + [e]) == Digests(es) + {DigestOf(e)}
  {
    hide DigestOf;
    assert forall x :: x in es + [e] <==> x in es || x == e;
  }

  lemma DigestsOfNone()
    ensures Digests([]) == {}
  {
  }

  /** Visiting one more entry of a list adds its digest to those of the entries before it. */
  lemma VisitOne(es: seq<Evidence>, i: nat)
    requires i < |es|
    ensures Digests(es[..i + 1]) == Digests(es[..i]) + {DigestOf(es[i])}
  {
    hide DigestOf, Digests;
    DigestsOfInsert(es[..i], es[i]);
    assert es[..i + 1] == es[..i] + [es[i]];
  }

  lemma InsertKeeps(es: seq<Evidence>, e: Evidence)
    requires Distinct(es) && AllAcceptable(es)
    ensures Distinct(Insert(es, e)) && AllAcceptable(Insert(es, e))
  {
    hide DigestOf, Acceptable;
    if Accepts(es, e) {
      assert forall i :: 0 <= i < |es| ==> es[i] in es && DigestOf(es[i]) in Digests(es);
    }
  }

  lemma {:induction false} InsertAllKeeps(es: seq<Evidence>, more: seq<Evidence>)
    requires Distinct(es) && AllAcceptable(es)
    ensures Distinct(InsertAll(es, more)) && AllAcceptable(InsertAll(es, more))
    decreases |more|
  {
    if more != [] {
      InsertKeeps(es, more[0]);
      InsertAllKeeps(Insert(es, more[0]), more[1..]);
    }
  }

  /** Inserting records that are all acceptable and mutually new appends every one of them. */
  lemma {:induction false} InsertAllOfDistinct(es: seq<Evidence>, more: seq<Evidence>)
    requires Distinct(es + more) && AllAcceptable(more)
    ensures InsertAll(es, more) == es + more
    decreases |more|
  {
    hide DigestOf, Acceptable;
    if more != [] {
      var e := more[0];
      assert Accepts(es, e) by {
        assert (es + more)[|es|] == e;
        forall x | x in es
          ensures DigestOf(x) != DigestOf(e)
        {
          var i :| 0 <= i < |es| && es[i] == x;
          assert (es + more)[i] == x;
        }
      }
      assert (es + [e]) + more[1..] == es + more;
      InsertAllOfDistinct(es + [e], more[1..]);
    } else {
      assert es + more == es;
    }
  }

  /** Whatever was fed to a store, replaying the entries it kept reproduces them unchanged. */
  lemma ReplayIsIdempotent(fed: seq<Evidence>)
    ensures InsertAll([], InsertAll([], fed)) == InsertAll([], fed)
  {
    InsertAllKeeps([], fed);
    var kept := InsertAll([], fed);
    assert [] + kept == kept;
    InsertAllOfDistinct([], kept);
  }

  // ---------------------------------------------------------------- what a store keeps

  /** Record `i` is acceptable and no earlier acceptable record has its digest. */
  predicate IsFirst(fed: seq<Evidence>, i: nat)
    requires i < |fed|
  {
    Acceptable(fed[i]) &&
    forall j :: 0 <= j < i ==> !(Acceptable(fed[j]) && DigestOf(fed[j]) == DigestOf(fed[i]))
  }

  function FirstOccurrences(fed: seq<Evidence>, n: nat): seq<Evidence>
    requires n <= |fed|
  {
    if n == 0 then [] else
      FirstOccurrences(fed, n - 1) + if IsFirst(fed, n - 1) then [fed[n - 1]] else []
  }

  lemma {:induction false} DigestsOfFirstOccurrences(fed: seq<Evidence>, n: nat, d: Digest)
    requires n <= |fed|
    ensures d in Digests(FirstOccurrences(fed, n)) <==>
            exists j :: 0 <= j < n && Acceptable(fed[j]) && DigestOf(fed[j]) == d
  {
    hide DigestOf, Acceptable;
    if n > 0 {
      DigestsOfFirstOccurrences(fed, n - 1, d);
      var before := FirstOccurrences(fed, n - 1);
      DigestsOfInsert(before, fed[n - 1]);
      if Acceptable(fed[n - 1]) && !IsFirst(fed, n - 1) && DigestOf(fed[n - 1]) == d {
        var j :| 0 <= j < n - 1 && Acceptable(fed[j]) && DigestOf(fed[j]) == d;
      }
      assert before + [] == before;
    }
  }

  lemma {:induction false} InsertAllSnoc(es: seq<Evidence>, more: seq<Evidence>, e: Evidence)
    ensures InsertAll(es, more + [e]) == Insert(InsertAll(es, more), e)
    decreases |more|
  {
    hide Insert;
    if more == [] {
      assert (more + [e])[1..] == [];
    } else {
      assert (more + [e])[1..] == more[1..] + [e];
      InsertAllSnoc(Insert(es, more[0]), more[1..], e);
    }
  }

  /** A store keeps, in order, exactly the first acceptable record of each digest it was fed. */
  lemma {:induction false} StoreKeepsFirstOccurrences(fed: seq<Evidence>, n: nat)
    requires n <= |fed|
    ensures InsertAll([], fed[..n]) == FirstOccurrences(fed, n)
  {
    hide DigestOf, Acceptable;
    if n > 0 {
      StoreKeepsFirstOccurrences(fed, n - 1);
      assert fed[..n] == fed[..n - 1] + [fed[n - 1]];
      InsertAllSnoc([], fed[..n - 1], fed[n - 1]);
      DigestsOfFirstOccurrences(fed, n - 1, DigestOf(fed[n - 1]));
      assert FirstOccurrences(fed, n - 1) + [] == FirstOccurrences(fed, n - 1);
    }
  }

  lemma InsertAllOfNothing(none: seq<Evidence>)
    requires none == []
    ensures InsertAll([], none) == []
  {
  }

  lemma ReplayResult(fed: seq<Evidence>)
    ensures InsertAll([], fed[..|fed|]) == FirstOccurrences(fed, |fed|)
    ensures Distinct(fed) && AllAcceptable(fed) ==> FirstOccurrences(fed, |fed|) == fed
  {
    assert fed[..|fed|] == fed && [] + fed == fed;
    StoreKeepsFirstOccurrences(fed, |fed|);
    if Distinct(fed) && AllAcceptable(fed) {
      InsertAllOfDistinct([], fed);
    }
  }

  // ---------------------------------------------------------------- comparing by value instead

  /** Deduplication that compares whole records rather than digests. */
  predicate AcceptsByValue(es: seq<Evidence>, e: Evidence) {
    Acceptable(e) && e !in es
  }

  function InsertAllByValue(es: seq<Evidence>, more: seq<Evidence>): seq<Evidence>
    decreases |more|
  {
    if more == [] then es
    else InsertAllByValue(if AcceptsByValue(es, more[0]) then es + [more[0]] else es, more[1..])
  }

  /**
   For an acceptable record the two ways of deduplicating agree exactly when the store has the
   record itself or nothing with its digest.
   */
  lemma DedupAgreesIff(es: seq<Evidence>, e: Evidence)
    requires Acceptable(e)
    ensures (Accepts(es, e) <==> AcceptsByValue(es, e)) <==> e in es || DigestOf(e) !in Digests(es)
    ensures Distinct(es) ==>
              ((Accepts(es, e) <==> AcceptsByValue(es, e)) <==>
               !exists x :: x in es && x != e && DigestOf(x) == DigestOf(e))
  {
    hide DigestOf, Acceptable, Distinct;
    if e in es {
      assert DigestOf(e) in Digests(es);
      if Distinct(es) {
        forall x | x in es && DigestOf(x) == DigestOf(e)
          ensures x == e
        {
          SameDigestSameRecord(es, x, e);
        }
      }
    }
  }

  lemma SameDigestSameRecord(es: seq<Evidence>, x: Evidence, y: Evidence)
    requires x in es && y in es && DigestOf(x) == DigestOf(y) && Distinct(es)
    ensures x == y
  {
    hide DigestOf;
    var i :| 0 <= i < |es| && es[i] == x;
    var j :| 0 <= j < |es| && es[j] == y;
    assert !(i < j) && !(j < i);
  }

  /** Records that state the same fact share a digest, so only the first of them is stored, however they differ. */
  lemma SameFactIsDuplicate(es: seq<Evidence>, x: Evidence, e: Evidence)
    requires x in es && FactOf(x) == FactOf(e)
    ensures DigestOf(x) == DigestOf(e) && !Accepts(es, e)
  {
    hide Digests, HighLane, LowLane;
    DigestStreamIsInjective(x, e);
    DigestInSet(es, x);
  }

  lemma DigestInSet(es: seq<Evidence>, x: Evidence)
    requires x in es
    ensures DigestOf(x) in Digests(es)
  {
    hide DigestOf;
  }

  /** Every pair of acceptable records with one digest is a pair of equal records. */
  ghost predicate DigestsTellApart(fed: seq<Evidence>) {
    forall x, y :: x in fed && y in fed && Acceptable(x) && Acceptable(y) && DigestOf(x) == DigestOf(y) ==> x == y
  }

  /**
   Replaying by digest keeps what replaying by value would exactly when no two different acceptable
   records of the list share a digest.
   */
  lemma ReplayByValueIff(fed: seq<Evidence>)
    ensures InsertAll([], fed) == InsertAllByValue([], fed) <==> DigestsTellApart(fed)
  {
    hide DigestOf, Acceptable, Digests, Accepts, InsertAll, InsertAllByValue;
    if DigestsTellApart(fed) {
      assert [] + fed == fed;
      SameWhenTold([], fed);
    }
    if InsertAll([], fed) == InsertAllByValue([], fed) {
      InsertAllKeeps([], fed);
      var kept := InsertAll([], fed);
      forall x, y | x in fed && y in fed && Acceptable(x) && Acceptable(y) && DigestOf(x) == DigestOf(y)
        ensures x == y
      {
        ByValueKeeps([], fed, x);
        ByValueKeeps([], fed, y);
        SameDigestSameRecord(kept, x, y);
      }
    }
  }

  lemma {:induction false} SameWhenTold(es: seq<Evidence>, more: seq<Evidence>)
    requires AllAcceptable(es) && DigestsTellApart(es + more)
    ensures InsertAll(es, more) == InsertAllByValue(es, more)
    decreases |more|
  {
    hide DigestOf, Acceptable, Digests;
    if more != [] {
      var e := more[0];
      assert e in es + more;
      assert forall x :: x in es ==> x in es + more;
      if e in es {
        DigestInSet(es, e);
      }
      assert Accepts(es, e) <==> AcceptsByValue(es, e) by {
        NewDigest(es, more);
      }
      var next := Insert(es, e);
      forall x | x in next + more[1..]
        ensures x in es + more
      {
      }
      SameWhenTold(next, more[1..]);
    }
  }

  lemma NewDigest(es: seq<Evidence>, more: seq<Evidence>)
    requires AllAcceptable(es) && DigestsTellApart(es + more) && more != []
    ensures Acceptable(more[0]) && more[0] !in es ==> DigestOf(more[0]) !in Digests(es)
  {
    hide DigestOf, Acceptable;
    assert more[0] in es + more;
    assert forall x :: x in es ==> x in es + more;
  }

  lemma {:induction false} ByValueKeeps(es: seq<Evidence>, more: seq<Evidence>, x: Evidence)
    requires x in es || (x in more && Acceptable(x))
    ensures x in InsertAllByValue(es, more)
    decreases |more|
  {
    hide Acceptable;
    if more != [] {
      var next := if AcceptsByValue(es, more[0]) then es + [more[0]] else es;
      assert x in next || (x in more[1..] && Acceptable(x));
      ByValueKeeps(next, more[1..], x);
    }
  }

  // ---------------------------------------------------------------- the store object

  class Store {
    var entries: seq<Evidence>
    var index: set<Digest>

    ghost predicate Valid()
      reads this
    {
      index == Digests(entries) && Distinct(entries) && AllAcceptable(entries)
    }

    constructor ()
      ensures Valid() && entries == []
    {
      entries, index := [], {};
    }

    method Append(e: Evidence) returns (added: bool)
      requires Valid()
      modifies this
      ensures Valid()
      ensures added == Accepts(old(entries), e)
      ensures entries == Insert(old(entries), e)
    {
      InsertKeeps(entries, e);
      DigestsOfInsert(entries, e);
      if !Acceptable(e) || DigestOf(e) in index {
        return false;
      }
      index := index + {DigestOf(e)};
      entries := entries + [e];
      return true;
    }

    method Contains(e: Evidence) returns (found: bool)
      requires Valid()
      ensures found == exists x :: x in entries && DigestOf(x) == DigestOf(e)
    {
      found := DigestOf(e) in index;
    }

    static method Replay(evidence: seq<Evidence>) returns (restored: Store)
      ensures fresh(restored) && restored.Valid()
      ensures restored.entries == FirstOccurrences(evidence, |evidence|)
      ensures Distinct(evidence) && AllAcceptable(evidence) ==> restored.entries == evidence
    {
      hide Insert, InsertAll, FirstOccurrences, Distinct, AllAcceptable, Digests;
      restored := new Store();
      assert restored.entries == InsertAll([], evidence[..0]) by {
        InsertAllOfNothing(evidence[..0]);
      }
      for i := 0 to |evidence|
        invariant fresh(restored) && restored.Valid()
        invariant restored.entries == InsertAll([], evidence[..i])
      {
        assert evidence[..i + 1] == evidence[..i] + [evidence[i]];
        InsertAllSnoc([], evidence[..i], evidence[i]);
        var _ := restored.Append(evidence[i]);
      }
      ReplayResult(evidence);
    }
  }
}
