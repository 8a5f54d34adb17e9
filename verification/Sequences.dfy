/** Concatenation laws that the verifier does not find on its own. */
module Sequences {
  lemma Associate<T>(x: seq<T>, y: seq<T>, z: seq<T>)
    ensures x + (y + z) == (x + y) + z
  {
  }

  lemma TailOfJoin<T>(a: seq<T>, b: seq<T>)
    requires a != []
    ensures (a + b)[0] == a[0] && (a + b)[1..] == a[1..] + b
  {
  }

  lemma EmptyJoin<T>(a: seq<T>)
    ensures [] + a == a && a + [] == a
  {
  }
}
