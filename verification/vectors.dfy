/** Exact-real vector and matrix arithmetic: the element-wise numpy
    operations the local fits apply to window vectors. Nonlinear steps are
    kept in small per-element lemmas; the lemmas over whole vectors only
    combine them linearly. */
module Vectors {

  type Vector = seq<real>
  type Matrix = seq<seq<real>>

  predicate IsMatrix(m: Matrix, rows: nat, cols: nat)
  {
    |m| == rows && forall r :: 0 <= r < rows ==> |m[r]| == cols
  }

  function Abs(x: real): real
  {
    if x < 0.0 then -x else x
  }

  function Sum(v: Vector): real
  {
    if |v| == 0 then 0.0 else v[0] + Sum(v[1..])
  }

  function Scale(v: Vector, c: real): Vector
  {
    seq(|v|, i requires 0 <= i < |v| => c * v[i])
  }

  /** Element-wise product (numpy `u * v`). */
  function Mul(u: Vector, v: Vector): Vector
    requires |u| == |v|
  {
    seq(|u|, i requires 0 <= i < |u| => u[i] * v[i])
  }

  /** Element-wise difference (numpy `u - v`). */
  function Sub(u: Vector, v: Vector): Vector
    requires |u| == |v|
  {
    seq(|u|, i requires 0 <= i < |u| => u[i] - v[i])
  }

  /** Element-wise sum (numpy `u + v`). */
  function Add(u: Vector, v: Vector): Vector
    requires |u| == |v|
  {
    seq(|u|, i requires 0 <= i < |u| => u[i] + v[i])
  }

  function Constant(n: nat, c: real): Vector
  {
    seq(n, _ => c)
  }

  /** np.dot of two vectors. */
  function Dot(u: Vector, v: Vector): real
    requires |u| == |v|
  {
    Sum(Mul(u, v))
  }

  /** np.dot of a matrix (list of rows) with a vector. */
  function MatVec(m: Matrix, v: Vector): Vector
    requires forall r :: 0 <= r < |m| ==> |m[r]| == |v|
  {
    seq(|m|, r requires 0 <= r < |m| => Dot(m[r], v))
  }

  /** (k * (w - f)**2).sum(): the kernel-weighted residual sum of squares. */
  function WeightedSS(k: Vector, w: Vector, f: Vector): real
    requires |k| == |w| == |f|
  {
    var r := Sub(w, f);
    Sum(Mul(k, Mul(r, r)))
  }

  predicate AllZero(v: Vector)
  {
    forall i :: 0 <= i < |v| ==> v[i] == 0.0
  }

  /** np.max(abs(v)): the largest magnitude, zero exactly when v is all zero. */
  function MaxAbs(v: Vector): (r: real)
    requires |v| > 0
    ensures forall i :: 0 <= i < |v| ==> Abs(v[i]) <= r
    ensures r == 0.0 <==> AllZero(v)
    ensures exists i :: 0 <= i < |v| && r == Abs(v[i])
  {
    if |v| == 1 then Abs(v[0])
    else
      var rest := MaxAbs(v[1..]);
      assert forall i :: 1 <= i < |v| ==> v[i] == v[1..][i - 1];
      var j :| 0 <= j < |v| - 1 && rest == Abs(v[1..][j]);
      assert rest == Abs(v[j + 1]);
      if Abs(v[0]) < rest then rest else Abs(v[0])
  }

  lemma ScaleTail(v: Vector, c: real)
    requires |v| > 0
    ensures Scale(v, c)[1..] == Scale(v[1..], c)
  {
    assert forall i :: 0 <= i < |v| - 1 ==> Scale(v, c)[1..][i] == Scale(v[1..], c)[i];
  }

  lemma {:induction false} SumScale(v: Vector, c: real)
    ensures Sum(Scale(v, c)) == c * Sum(v)
  {
    if |v| > 0 {
      ScaleTail(v, c);
      SumScale(v[1..], c);
    }
  }

  lemma {:induction false} SumAdd(u: Vector, v: Vector)
    requires |u| == |v|
    ensures Sum(Add(u, v)) == Sum(u) + Sum(v)
  {
    if |u| > 0 {
      assert Add(u, v)[1..] == Add(u[1..], v[1..]);
      SumAdd(u[1..], v[1..]);
    }
  }

  lemma {:induction false} SumSub(u: Vector, v: Vector)
    requires |u| == |v|
    ensures Sum(Sub(u, v)) == Sum(u) - Sum(v)
  {
    if |u| > 0 {
      assert Sub(u, v)[1..] == Sub(u[1..], v[1..]);
      SumSub(u[1..], v[1..]);
    }
  }

  lemma {:induction false} SumMonotone(a: Vector, b: Vector)
    requires |a| == |b|
    requires forall i :: 0 <= i < |a| ==> a[i] <= b[i]
    ensures Sum(a) <= Sum(b)
  {
    if |a| > 0 {
      SumMonotone(a[1..], b[1..]);
    }
  }

  lemma {:induction false} SumZero(v: Vector)
    requires forall i :: 0 <= i < |v| ==> v[i] == 0.0
    ensures Sum(v) == 0.0
  {
    if |v| > 0 {
      SumZero(v[1..]);
    }
  }

  lemma {:induction false} SumNonnegative(v: Vector)
    requires forall i :: 0 <= i < |v| ==> v[i] >= 0.0
    ensures Sum(v) >= 0.0
  {
    if |v| > 0 {
      SumNonnegative(v[1..]);
    }
  }

  lemma {:induction false} SumPositive(v: Vector)
    requires |v| > 0 && forall i :: 0 <= i < |v| ==> v[i] > 0.0
    ensures Sum(v) > 0.0
  {
    if |v| > 1 {
      SumPositive(v[1..]);
    }
  }

  lemma DotScale(u: Vector, v: Vector, c: real)
    requires |u| == |v|
    ensures Dot(u, Scale(v, c)) == c * Dot(u, v)
  {
    MulScale(u, v, c);
    SumScale(Mul(u, v), c);
  }

  lemma MulScale(u: Vector, v: Vector, c: real)
    requires |u| == |v|
    ensures Mul(u, Scale(v, c)) == Scale(Mul(u, v), c)
  {
    var left, right := Mul(u, Scale(v, c)), Scale(Mul(u, v), c);
    forall i | 0 <= i < |u|
      ensures left[i] == right[i]
    {
      assert left[i] == u[i] * (c * v[i]);
      assert right[i] == c * (u[i] * v[i]);
      ProductRegroup(u[i], v[i], c);
    }
  }

  lemma ProductRegroup(a: real, b: real, c: real)
    ensures a * (c * b) == c * (a * b)
  {
  }

  /** A matrix maps the zero vector to the zero vector. */
  lemma MatVecZero(m: Matrix, v: Vector)
    requires forall r :: 0 <= r < |m| ==> |m[r]| == |v|
    requires AllZero(v)
    ensures |MatVec(m, v)| == |m| && AllZero(MatVec(m, v))
  {
    forall r | 0 <= r < |m|
      ensures MatVec(m, v)[r] == 0.0
    {
      SumZero(Mul(m[r], v));
    }
  }

  lemma MatVecScale(m: Matrix, v: Vector, c: real)
    requires forall r :: 0 <= r < |m| ==> |m[r]| == |v|
    ensures MatVec(m, Scale(v, c)) == Scale(MatVec(m, v), c)
  {
    forall r | 0 <= r < |m|
      ensures MatVec(m, Scale(v, c))[r] == Scale(MatVec(m, v), c)[r]
    {
      DotScale(m[r], v, c);
    }
  }

  /** With positive weights, a vector bounded by lo and hi has its weighted
      sum between lo and hi times the total weight. */
  lemma DotBounds(k: Vector, w: Vector, lo: real, hi: real)
    requires |k| == |w|
    requires forall i :: 0 <= i < |k| ==> k[i] > 0.0
    requires forall i :: 0 <= i < |w| ==> lo <= w[i] <= hi
    ensures lo * Sum(k) <= Dot(k, w) <= hi * Sum(k)
  {
    ElementBounds(k, w, lo, hi);
    SumMonotone(Scale(k, lo), Mul(k, w));
    SumMonotone(Mul(k, w), Scale(k, hi));
    SumScale(k, lo);
    SumScale(k, hi);
  }

  lemma ElementBounds(k: Vector, w: Vector, lo: real, hi: real)
    requires |k| == |w|
    requires forall i :: 0 <= i < |k| ==> k[i] > 0.0
    requires forall i :: 0 <= i < |w| ==> lo <= w[i] <= hi
    ensures forall i :: 0 <= i < |k| ==> Scale(k, lo)[i] <= Mul(k, w)[i] <= Scale(k, hi)[i]
  {
    forall i | 0 <= i < |k|
      ensures Scale(k, lo)[i] <= Mul(k, w)[i] <= Scale(k, hi)[i]
    {
      MulBounds(k[i], w[i], lo, hi);
    }
  }

  lemma MulBounds(a: real, x: real, lo: real, hi: real)
    requires a > 0.0 && lo <= x <= hi
    ensures lo * a <= a * x <= hi * a
  {
  }

  lemma WeightedSSNonnegative(k: Vector, w: Vector, f: Vector)
    requires |k| == |w| == |f|
    requires forall i :: 0 <= i < |k| ==> k[i] >= 0.0
    ensures WeightedSS(k, w, f) >= 0.0
  {
    var r := Sub(w, f);
    forall i | 0 <= i < |k|
      ensures Mul(k, Mul(r, r))[i] >= 0.0
    {
      WeightedSquareNonnegative(k[i], r[i]);
    }
    SumNonnegative(Mul(k, Mul(r, r)));
  }

  lemma WeightedSquareNonnegative(k0: real, r0: real)
    requires k0 >= 0.0
    ensures k0 * (r0 * r0) >= 0.0
  {
  }

  lemma WeightedSSSelf(k: Vector, w: Vector)
    requires |k| == |w|
    ensures WeightedSS(k, w, w) == 0.0
  {
    var r := Sub(w, w);
    assert forall i :: 0 <= i < |k| ==> Mul(k, Mul(r, r))[i] == 0.0;
    SumZero(Mul(k, Mul(r, r)));
  }

  /** Row-major flattening of a sequence of rows (numpy flatten). */
  function Flatten<T>(rows: seq<seq<T>>): seq<T>
  {
    if |rows| == 0 then [] else rows[0] + Flatten(rows[1..])
  }

  lemma {:induction false} FlattenLength<T>(rows: seq<seq<T>>, m: nat)
    requires forall r :: 0 <= r < |rows| ==> |rows[r]| == m
    ensures |Flatten(rows)| == |rows| * m
  {
    if |rows| > 0 {
      FlattenLength(rows[1..], m);
      assert |rows| * m == m + (|rows| - 1) * m;
    }
  }

  /** Element b of row a of equal-length rows lands at a * m + b. */
  lemma {:induction false} FlattenAt<T>(rows: seq<seq<T>>, m: nat, a: nat, b: nat)
    requires forall r :: 0 <= r < |rows| ==> |rows[r]| == m
    requires a < |rows| && b < m
    ensures |Flatten(rows)| == |rows| * m
    ensures a * m + b < |Flatten(rows)|
    ensures Flatten(rows)[a * m + b] == rows[a][b]
  {
    FlattenLength(rows, m);
    if a > 0 {
      FlattenAt(rows[1..], m, a - 1, b);
      assert a * m + b == m + ((a - 1) * m + b);
    }
  }
}
