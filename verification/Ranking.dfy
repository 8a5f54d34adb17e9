/** Sorting by a comparator, and when the result does not depend on the sorting method. */
module Ranking {
  /** `before` is a strict weak order: asymmetric, and its ties are transitive. */
  ghost predicate StrictWeak<T(!new)>(before: (T, T) -> bool) {
    && (forall a, b :: before(a, b) ==> !before(b, a))
    && (forall a, b, c :: !before(a, b) && !before(b, c) ==> !before(a, c))
  }

  /** No later element ranks before an earlier one. */
  predicate Sorted<T>(s: seq<T>, before: (T, T) -> bool) {
    forall i, j :: 0 <= i < j < |s| ==> !before(s[j], s[i])
  }

  /** Different elements are never tied. */
  ghost predicate NoTies<T>(s: seq<T>, before: (T, T) -> bool) {
    forall i, j :: 0 <= i < |s| && 0 <= j < |s| && s[i] != s[j] ==> before(s[i], s[j]) || before(s[j], s[i])
  }

  function Insert<T>(x: T, s: seq<T>, before: (T, T) -> bool): seq<T> {
    if s == [] || before(x, s[0]) then [x] + s else [s[0]] + Insert(x, s[1..], before)
  }

  function Sort<T>(s: seq<T>, before: (T, T) -> bool): (r: seq<T>) {
    if s == [] then [] else Insert(s[0], Sort(s[1..], before), before)
  }

  lemma SortedCons<T>(x: T, s: seq<T>, before: (T, T) -> bool)
    requires Sorted(s, before) && forall j :: 0 <= j < |s| ==> !before(s[j], x)
    ensures Sorted([x] + s, before)
  {
  }

  lemma SortedTail<T>(s: seq<T>, before: (T, T) -> bool)
    requires Sorted(s, before) && s != []
    ensures Sorted(s[1..], before) && forall j :: 0 <= j < |s[1..]| ==> !before(s[1..][j], s[0])
  {
  }

  /** What ranks before the first element of a sorted sequence is ranked before by none of it. */
  lemma NoneBefore<T(!new)>(x: T, s: seq<T>, before: (T, T) -> bool, j: nat)
    requires StrictWeak(before) && Sorted(s, before) && j < |s| && before(x, s[0])
    ensures !before(s[j], x)
  {
  }

  lemma {:induction false} InsertMembers<T>(x: T, s: seq<T>, before: (T, T) -> bool)
    ensures multiset(Insert(x, s, before)) == multiset(s) + multiset{x}
    ensures forall j :: 0 <= j < |Insert(x, s, before)| ==> Insert(x, s, before)[j] == x || Insert(x, s, before)[j] in s
  {
    if s != [] && !before(x, s[0]) {
      InsertMembers(x, s[1..], before);
      assert s == [s[0]] + s[1..];
    }
  }

  lemma {:induction false} InsertSorts<T(!new)>(x: T, s: seq<T>, before: (T, T) -> bool)
    requires StrictWeak(before) && Sorted(s, before)
    ensures Sorted(Insert(x, s, before), before)
  {
    hide StrictWeak, Sorted;
    if s == [] {
      Singleton(x, before);
    } else if before(x, s[0]) {
      forall j | 0 <= j < |s|
        ensures !before(s[j], x)
      {
        NoneBefore(x, s, before, j);
      }
      SortedCons(x, s, before);
    } else {
      SortedTail(s, before);
      InsertSorts(x, s[1..], before);
      InsertMembers(x, s[1..], before);
      SortedCons(s[0], Insert(x, s[1..], before), before);
    }
  }

  lemma Singleton<T>(x: T, before: (T, T) -> bool)
    ensures Sorted([x] + [], before)
  {
  }

  /** Sorting orders the elements and neither loses nor adds one. */
  lemma {:induction false} SortSorts<T(!new)>(s: seq<T>, before: (T, T) -> bool)
    requires StrictWeak(before)
    ensures Sorted(Sort(s, before), before) && multiset(Sort(s, before)) == multiset(s)
    ensures |Sort(s, before)| == |s|
  {
    hide Sorted, StrictWeak, Insert;
    if s == [] {
      EmptySorts(before);
    } else {
      SortSorts(s[1..], before);
      InsertSorts(s[0], Sort(s[1..], before), before);
      InsertMembers(s[0], Sort(s[1..], before), before);
      assert s == [s[0]] + s[1..];
    }
    SameLength(Sort(s, before), s);
  }

  lemma EmptySorts<T>(before: (T, T) -> bool)
    ensures Sorted([], before)
  {
  }

  /** Without ties there is only one way to sort: any correct sorting method gives the same result. */
  lemma {:induction false} SortedIsUnique<T(!new)>(a: seq<T>, b: seq<T>, before: (T, T) -> bool)
    requires Sorted(a, before) && Sorted(b, before) && multiset(a) == multiset(b) && NoTies(a, before)
    ensures a == b
  {
    hide Sorted, NoTies;
    SameLength(a, b);
    if a != [] {
      SameFirst(a, b, before);
      assert a == [a[0]] + a[1..] && b == [b[0]] + b[1..];
      assert multiset(a[1..]) == multiset(a) - multiset{a[0]} == multiset(b[1..]);
      SortedTail(a, before);
      SortedTail(b, before);
      NoTiesTail(a, before);
      SortedIsUnique(a[1..], b[1..], before);
    }
  }

  lemma SameLength<T>(a: seq<T>, b: seq<T>)
    requires multiset(a) == multiset(b)
    ensures |a| == |b|
  {
    assert |multiset(a)| == |a| && |multiset(b)| == |b|;
  }

  lemma NoTiesTail<T>(s: seq<T>, before: (T, T) -> bool)
    requires NoTies(s, before) && s != []
    ensures NoTies(s[1..], before)
  {
  }

  lemma PermutationNeverTies<T>(a: seq<T>, b: seq<T>, before: (T, T) -> bool)
    requires NoTies(a, before) && multiset(a) == multiset(b)
    ensures NoTies(b, before)
  {
    forall i, j | 0 <= i < |b| && 0 <= j < |b| && b[i] != b[j]
      ensures before(b[i], b[j]) || before(b[j], b[i])
    {
      assert b[i] in multiset(a) && b[j] in multiset(a);
    }
  }

  lemma SameFirst<T>(a: seq<T>, b: seq<T>, before: (T, T) -> bool)
    requires Sorted(a, before) && Sorted(b, before) && multiset(a) == multiset(b) && NoTies(a, before)
    requires a != [] && b != []
    ensures a[0] == b[0]
  {
    assert a[0] in multiset(b) && b[0] in multiset(a);
    var i :| 0 <= i < |b| && b[i] == a[0];
    var j :| 0 <= j < |a| && a[j] == b[0];
  }
}
