/** Finite vectors and matrices of reals, as far as the scorer's forward and backward passes need them. */
module LinearAlgebra {
  type Vector = seq<real>

  function Product(x: real, y: real): real {
    x * y
  }

  function Dot(a: Vector, b: Vector): real
    requires |a| == |b|
  {
    if |a| == 0 then 0.0 else Dot(a[..|a| - 1], b[..|b| - 1]) + Product(a[|a| - 1], b[|b| - 1])
  }

  function Add(a: Vector, b: Vector): (c: Vector)
    requires |a| == |b|
    ensures |c| == |a|
  {
    seq(|a|, i requires 0 <= i < |a| => a[i] + b[i])
  }

  function Scale(k: real, a: Vector): (c: Vector)
    ensures |c| == |a|
  {
    seq(|a|, i requires 0 <= i < |a| => Product(k, a[i]))
  }

  /** The elementwise product. */
  function Times(a: Vector, b: Vector): (c: Vector)
    requires |a| == |b|
    ensures |c| == |a|
  {
    seq(|a|, i requires 0 <= i < |a| => Product(a[i], b[i]))
  }

  predicate Matrix(rows: seq<Vector>, width: nat) {
    forall o :: 0 <= o < |rows| ==> |rows[o]| == width
  }

  /** One output per row. */
  function MatVec(rows: seq<Vector>, x: Vector): (y: Vector)
    requires Matrix(rows, |x|)
    ensures |y| == |rows|
  {
    seq(|rows|, o requires 0 <= o < |rows| => Dot(rows[o], x))
  }

  function Column(rows: seq<Vector>, width: nat, i: nat): (c: Vector)
    requires Matrix(rows, width) && i < width
    ensures |c| == |rows|
  {
    seq(|rows|, o requires 0 <= o < |rows| => rows[o][i])
  }

  /** One output per column: the transpose applied to `d`. */
  function VecMat(d: Vector, rows: seq<Vector>, width: nat): (y: Vector)
    requires Matrix(rows, width) && |d| == |rows|
    ensures |y| == width
  {
    seq(width, i requires 0 <= i < width => Dot(d, Column(rows, width, i)))
  }

  lemma {:induction false} DotAdd(a: Vector, b: Vector, c: Vector)
    requires |a| == |b| == |c|
    ensures Dot(a, Add(b, c)) == Dot(a, b) + Dot(a, c)
    ensures Dot(Add(b, c), a) == Dot(b, a) + Dot(c, a)
  {
    var n := |a|;
    if n > 0 {
      DotAdd(a[..n - 1], b[..n - 1], c[..n - 1]);
      assert Add(b, c)[..n - 1] == Add(b[..n - 1], c[..n - 1]);
      Distribute(a[n - 1], b[n - 1], c[n - 1]);
    }
  }

  lemma Distribute(x: real, y: real, z: real)
    ensures x * (y + z) == x * y + x * z && (y + z) * x == y * x + z * x
  {
  }

  lemma ScalePrefix(k: real, a: Vector)
    requires |a| > 0
    ensures Scale(k, a)[..|a| - 1] == Scale(k, a[..|a| - 1])
  {
    hide Product;
  }

  lemma TimesPrefix(a: Vector, b: Vector)
    requires |a| == |b| > 0
    ensures Times(a, b)[..|a| - 1] == Times(a[..|a| - 1], b[..|b| - 1])
  {
    hide Product;
  }

  lemma {:induction false} DotScale(k: real, a: Vector, b: Vector)
    requires |a| == |b|
    ensures Dot(Scale(k, a), b) == k * Dot(a, b)
  {
    var n := |a|;
    if n > 0 {
      DotScale(k, a[..n - 1], b[..n - 1]);
      ScalePrefix(k, a);
      var p, x, y := Dot(a[..n - 1], b[..n - 1]), a[n - 1], b[n - 1];
      Distribute(k, p, x * y);
      assert (k * x) * y == k * (x * y);
    }
  }

  lemma {:induction false} DotCommutes(a: Vector, b: Vector)
    requires |a| == |b|
    ensures Dot(a, b) == Dot(b, a)
  {
    if |a| > 0 {
      DotCommutes(a[..|a| - 1], b[..|b| - 1]);
    }
  }

  /** A factor may move from one side of a product to the other. */
  lemma {:induction false} DotTimes(a: Vector, b: Vector, c: Vector)
    requires |a| == |b| == |c|
    ensures Dot(a, Times(b, c)) == Dot(Times(a, b), c)
  {
    var n := |a|;
    if n > 0 {
      DotTimes(a[..n - 1], b[..n - 1], c[..n - 1]);
      TimesPrefix(b, c);
      TimesPrefix(a, b);
      Associate(a[n - 1], b[n - 1], c[n - 1]);
    }
  }

  lemma Associate(x: real, y: real, z: real)
    ensures x * (y * z) == (x * y) * z
  {
  }

  lemma {:induction false} DotZero(a: Vector, b: Vector)
    requires |a| == |b| && forall i :: 0 <= i < |a| ==> a[i] == 0.0
    ensures Dot(a, b) == 0.0
  {
    if |a| > 0 {
      DotZero(a[..|a| - 1], b[..|b| - 1]);
    }
  }

  lemma VecMatOfLastRow(d: Vector, rows: seq<Vector>, width: nat)
    requires Matrix(rows, width) && |d| == |rows| > 0
    ensures var n := |d| - 1;
            VecMat(d, rows, width) == Add(VecMat(d[..n], rows[..n], width), Scale(d[n], rows[n]))
  {
    var n := |d| - 1;
    var sum := Add(VecMat(d[..n], rows[..n], width), Scale(d[n], rows[n]));
    forall i | 0 <= i < width
      ensures VecMat(d, rows, width)[i] == sum[i]
    {
      assert Column(rows, width, i)[..n] == Column(rows[..n], width, i);
    }
  }

  /** The transpose is the adjoint: pairing with the output equals pairing the pulled-back vector with the input. */
  lemma {:induction false} Adjoint(d: Vector, rows: seq<Vector>, x: Vector)
    requires Matrix(rows, |x|) && |d| == |rows|
    ensures Dot(d, MatVec(rows, x)) == Dot(VecMat(d, rows, |x|), x)
  {
    if |d| == 0 {
      forall i | 0 <= i < |x|
        ensures VecMat(d, rows, |x|)[i] == 0.0
      {
      }
      DotZero(VecMat(d, rows, |x|), x);
    } else {
      var n := |d| - 1;
      Adjoint(d[..n], rows[..n], x);
      assert MatVec(rows, x)[..n] == MatVec(rows[..n], x);
      VecMatOfLastRow(d, rows, |x|);
      DotAdd(x, VecMat(d[..n], rows[..n], |x|), Scale(d[n], rows[n]));
      DotScale(d[n], rows[n], x);
    }
  }

  /** A vector that is zero everywhere but at `k` picks out one entry. */
  lemma {:induction false} DotUnit(a: Vector, u: Vector, k: nat)
    requires |a| == |u| && k < |u|
    requires forall i :: 0 <= i < |u| ==> u[i] == if i == k then 1.0 else 0.0
    ensures Dot(a, u) == a[k]
  {
    var n := |a| - 1;
    if k == n {
      DotZero(u[..n], a[..n]);
      DotCommutes(a[..n], u[..n]);
    } else {
      DotUnit(a[..n], u[..n], k);
    }
  }
}
