/** The per-pixel test of one width (localResolution2D.py lines 110-136): a
    kernel-weighted constant fit and a kernel-weighted sine/cosine fit of the
    window, their residual sums of squares, and the F statistic comparing
    them. */
module LocalRegression {
  import opened Basics
  import opened Floats
  import opened Vectors

  /** What one width supplies to the per-pixel fits: the kernel weights of the
      window pixels, the design matrix A (one row per window pixel, one column
      per basis function) and the weighted pseudo-inverse H of A (one row per
      basis function). */
  datatype Level = Level(kernel: Vector, design: Matrix, pinv: Matrix)

  predicate Positive(k: Vector)
  {
    |k| > 0 && forall i :: 0 <= i < |k| ==> k[i] > 0.0
  }

  /** The shapes the computation of lines 83-105 produces for a window of dof
      pixels; the kernel is an exponential and therefore positive. */
  predicate LevelShape(lv: Level, dof: nat)
  {
    Positive(lv.kernel) && |lv.kernel| == dof
    && IsMatrix(lv.design, dof, |lv.pinv|)
    && forall c :: 0 <= c < |lv.pinv| ==> |lv.pinv[c]| == dof
  }

  /** The weighted constant fit of line 120: the coefficient whose multiple of
      the total weight is the weighted sum of the window. */
  function ConstCoef(k: Vector, w: Vector): (r: real)
    requires Positive(k) && |k| == |w|
    ensures r * Sum(k) == Dot(k, w)
  {
    SumPositive(k);
    Dot(k, w) / Sum(k)
  }

  /** Element-wise division by a scalar (numpy `v / s`). */
  function Unscale(v: Vector, s: real): (r: Vector)
    requires s != 0.0
    ensures |r| == |v|
    ensures forall i :: 0 <= i < |v| ==> r[i] * s == v[i]
  {
    seq(|v|, i requires 0 <= i < |v| => v[i] / s)
  }

  /** The sine/cosine coefficients of lines 124-127: the window is scaled by
      the reciprocal of its largest magnitude, multiplied by H and scaled back.
      An all-zero window makes the scaling factor infinite and every
      coefficient NaN; that case is None. */
  function SinCosCoef(pinv: Matrix, w: Vector): (r: Option<Vector>)
    requires |w| > 0
    requires forall c :: 0 <= c < |pinv| ==> |pinv[c]| == |w|
    ensures r.None? <==> AllZero(w)
    ensures r.Some? ==> r.value == MatVec(pinv, w)
  {
    var m := MaxAbs(w);
    if m == 0.0 then None
    else
      var s := 1.0 / m;
      MatVecScale(pinv, w, s);
      UnscaleScale(MatVec(pinv, w), s);
      Some(Unscale(MatVec(pinv, Scale(w, s)), s))
  }

  lemma UnscaleScale(v: Vector, s: real)
    requires s != 0.0
    ensures Unscale(Scale(v, s), s) == v
  {
    forall i | 0 <= i < |v|
      ensures Unscale(Scale(v, s), s)[i] == v[i]
    {
      CancelFactor(Unscale(Scale(v, s), s)[i], v[i], s);
    }
  }

  lemma CancelFactor(x: real, y: real, s: real)
    requires s != 0.0 && x * s == s * y
    ensures x == y
  {
  }

  /** The F statistic of lines 135-136 with p0 = 1 constant coefficient, p1
      sine/cosine coefficients and n window pixels, computed in IEEE
      arithmetic. It is a number exactly when p1 differs from p0 and the
      sine/cosine residual is non-zero, and then it satisfies the defining
      ratio of the two residuals. A sine/cosine fit without residual (an
      exact sinusoid) gives an infinite statistic, or NaN when the constant
      fit has no residual either. */
  function FStatistic(rssC: real, rssS: real, p1: int, p0: int, n: int): (r: Float)
    ensures r.Num? <==> p1 != p0 && rssS != 0.0
    ensures r.Num? ==> r.v * (p1 - p0) as real * rssS == (rssC - rssS) * (n - p1) as real
    ensures p1 > p0 && n > p1 && rssS == 0.0 ==>
              (r.PosInf? <==> rssC > 0.0) && (r.NegInf? <==> rssC < 0.0) && (r.NaN? <==> rssC == 0.0)
  {
    var f := FQuotient(rssC - rssS, rssS, (p1 - p0) as real, (n - p1) as real);
    if f.Num? && n != p1 then
      RatioIdentity(f.v, rssC - rssS, (p1 - p0) as real, rssS, (n - p1) as real);
      f
    else f
  }

  /** (diff / q) / (rssS / m) in IEEE arithmetic. */
  function FQuotient(diff: real, rssS: real, q: real, m: real): Float
  {
    Div(Div(Num(diff), Num(q)), Div(Num(rssS), Num(m)))
  }

  lemma RatioIdentity(f: real, d: real, q: real, s: real, m: real)
    requires q != 0.0 && m != 0.0 && s != 0.0
    requires f * (s / m) == d / q
    ensures f * q * s == d * m
  {
    var a, b := d / q, s / m;
    assert d == a * q && s == b * m;
    assert f * b == a;
    assert f * q * s == (f * b) * q * m;
  }

  /** The residual sums of squares of lines 131-132, with the sine/cosine fit
      taken from the unscaled coefficients H w. */
  function RssConst(lv: Level, w: Vector): real
    requires LevelShape(lv, |w|)
  {
    WeightedSS(lv.kernel, w, Constant(|w|, ConstCoef(lv.kernel, w)))
  }

  function RssSinCos(lv: Level, w: Vector): real
    requires LevelShape(lv, |w|)
  {
    WeightedSS(lv.kernel, w, MatVec(lv.design, MatVec(lv.pinv, w)))
  }

  /** The F statistic of one window (lines 117-136). An all-zero window gives
      NaN; otherwise the rescaling of lines 124-127 has no effect and the
      statistic compares the two residual sums of squares. */
  function PixelF(lv: Level, w: Vector): (r: Float)
    requires LevelShape(lv, |w|)
    ensures AllZero(w) ==> r.NaN?
    ensures !AllZero(w) ==>
              r == FStatistic(RssConst(lv, w), RssSinCos(lv, w), |lv.pinv|, 1, |w|)
  {
    var cc := ConstCoef(lv.kernel, w);
    var rssC := WeightedSS(lv.kernel, w, Constant(|w|, cc));
    match SinCosCoef(lv.pinv, w)
    case None => NaN
    case Some(coef) =>
      var rssS := WeightedSS(lv.kernel, w, MatVec(lv.design, coef));
      FStatistic(rssC, rssS, |coef|, 1, |w|)
  }

  /** The statistic with the guard for an all-zero window that lines 124-136
      lack: such a window, where both fits are zero, gets the statistic 0
      instead of NaN. */
  function GuardedPixelF(lv: Level, w: Vector): (r: Float)
    requires LevelShape(lv, |w|)
    ensures AllZero(w) ==> r == Num(0.0) && RssConst(lv, w) == 0.0 && RssSinCos(lv, w) == 0.0
    ensures !AllZero(w) ==> r == PixelF(lv, w)
  {
    if AllZero(w) then
      ZeroWindowNoResidual(lv, w);
      Num(0.0)
    else PixelF(lv, w)
  }

  /** Both fits reproduce an all-zero window exactly. */
  lemma ZeroWindowNoResidual(lv: Level, w: Vector)
    requires LevelShape(lv, |w|) && AllZero(w)
    ensures RssConst(lv, w) == 0.0 && RssSinCos(lv, w) == 0.0
  {
    assert w == Constant(|w|, 0.0);
    ConstantWindowFit(lv, |w|, 0.0);
    MatVecZero(lv.pinv, w);
    var coef := MatVec(lv.pinv, w);
    MatVecZero(lv.design, coef);
    assert MatVec(lv.design, coef) == w;
    WeightedSSSelf(lv.kernel, w);
  }

  /** Which per-window statistic a computation uses: the one lines 117-136
      compute, or the one with the guard for all-zero windows. */
  datatype Statistic = AsWritten | Guarded

  function WindowStatistic(stat: Statistic, lv: Level, w: Vector): Float
    requires LevelShape(lv, |w|)
  {
    match stat
    case AsWritten => PixelF(lv, w)
    case Guarded => GuardedPixelF(lv, w)
  }

  /** As written, an all-zero window yields a NaN ratio to any critical
      value, and NaN is not at most 1, so it passes the test of line 158. */
  lemma ZeroWindowAsWritten(lv: Level, w: Vector, crit: real)
    requires LevelShape(lv, |w|) && AllZero(w)
    ensures Div(PixelF(lv, w), Num(crit)).NaN?
    ensures !AtMostOne(Div(PixelF(lv, w), Num(crit)))
  {
  }

  /** With the guard, an all-zero window never exceeds a positive critical
      value, and every other window keeps the statistic of lines 117-136. */
  lemma GuardedPixelFMeaning(lv: Level, w: Vector, crit: real)
    requires LevelShape(lv, |w|) && crit > 0.0
    ensures AllZero(w) ==> Div(GuardedPixelF(lv, w), Num(crit)) == Num(0.0)
    ensures AllZero(w) ==> AtMostOne(Div(GuardedPixelF(lv, w), Num(crit)))
    ensures !AllZero(w) ==> GuardedPixelF(lv, w) == PixelF(lv, w)
  {
  }

  /** With more coefficients than the constant fit and more pixels than
      coefficients, a positive sine/cosine residual makes the statistic a
      number whose sign is that of the residual reduction. */
  lemma FStatisticSign(rssC: real, rssS: real, p1: int, p0: int, n: int)
    requires p1 > p0 && n > p1 && rssS > 0.0
    ensures FStatistic(rssC, rssS, p1, p0, n).Num?
    ensures FStatistic(rssC, rssS, p1, p0, n).v > 0.0 <==> rssC > rssS
    ensures FStatistic(rssC, rssS, p1, p0, n).v == 0.0 <==> rssC == rssS
  {
    var f := FStatistic(rssC, rssS, p1, p0, n);
    SameSign(f.v, (p1 - p0) as real * rssS, rssC - rssS, (n - p1) as real);
  }

  lemma SameSign(x: real, a: real, y: real, b: real)
    requires a > 0.0 && b > 0.0 && x * a == y * b
    ensures x > 0.0 <==> y > 0.0
    ensures x == 0.0 <==> y == 0.0
  {
    if x > 0.0 {
      assert x * a > 0.0;
    } else if x < 0.0 {
      assert x * a < 0.0;
    }
  }

  /** The weighted mean lies between any bounds of the window. */
  lemma ConstCoefBounds(k: Vector, w: Vector, lo: real, hi: real)
    requires Positive(k) && |k| == |w|
    requires forall i :: 0 <= i < |w| ==> lo <= w[i] <= hi
    ensures lo <= ConstCoef(k, w) <= hi
  {
    DotBounds(k, w, lo, hi);
    SumPositive(k);
    CoefBounds(ConstCoef(k, w), Sum(k), Dot(k, w), lo, hi);
  }

  lemma CoefBounds(m: real, s: real, d: real, lo: real, hi: real)
    requires s > 0.0 && m * s == d && lo * s <= d <= hi * s
    ensures lo <= m <= hi
  {
    MulStrict(m, lo, s);
    MulStrict(hi, m, s);
  }

  lemma MulStrict(x: real, y: real, s: real)
    requires s > 0.0
    ensures x < y ==> x * s < y * s
  {
  }

  /** The constant fit is the weighted least-squares constant: no other
      constant has a smaller weighted residual. */
  lemma ConstFitLeastSquares(k: Vector, w: Vector, c: real)
    requires Positive(k) && |k| == |w|
    ensures WeightedSS(k, w, Constant(|w|, ConstCoef(k, w))) <= WeightedSS(k, w, Constant(|w|, c))
  {
    ShiftSum(k, w, ConstCoef(k, w), c);
  }

  /** Moving the constant from the weighted mean m to c adds the weighted
      square of the shift, which is never negative. */
  lemma ShiftSum(k: Vector, w: Vector, m: real, c: real)
    requires Positive(k) && |k| == |w| && m * Sum(k) == Dot(k, w)
    ensures WeightedSS(k, w, Constant(|w|, m)) <= WeightedSS(k, w, Constant(|w|, c))
  {
    ShiftDecomposition(k, w, m, c, m - c);
    SumNonnegative(ShiftPenalty(k, m - c));
  }

  /** The weighted squares of a shift d, pixel by pixel. */
  function ShiftPenalty(k: Vector, d: real): (q: Vector)
    requires Positive(k)
    ensures |q| == |k|
    ensures forall i :: 0 <= i < |k| ==> q[i] >= 0.0
  {
    seq(|k|, i requires 0 <= i < |k| => PenaltyNonnegative(k[i], d); d * d * k[i])
  }

  lemma PenaltyNonnegative(k0: real, d: real)
    requires k0 > 0.0
    ensures d * d * k0 >= 0.0
  {
  }

  /** The weighted residual about c is the one about the weighted mean m
      plus the weighted squares of the shift d = m - c. */
  lemma ShiftDecomposition(k: Vector, w: Vector, m: real, c: real, d: real)
    requires Positive(k) && |k| == |w| && m * Sum(k) == Dot(k, w) && d == m - c
    ensures WeightedSS(k, w, Constant(|w|, c)) == WeightedSS(k, w, Constant(|w|, m)) + Sum(ShiftPenalty(k, d))
  {
    var rc, rm := Sub(w, Constant(|w|, c)), Sub(w, Constant(|w|, m));
    var tc, tm := Mul(k, Mul(rc, rc)), Mul(k, Mul(rm, rm));
    var u := Sub(Mul(k, w), Scale(k, m));
    var q := ShiftPenalty(k, d);
    var cross := Scale(u, 2.0 * d);
    ShiftTerms(k, w, m, c, d);
    ResidualSumZero(k, w, m);
    SumScaleZero(u, 2.0 * d);
    SumDropZero(tm, cross, q);
    assert WeightedSS(k, w, Constant(|w|, c)) == Sum(tc);
    assert WeightedSS(k, w, Constant(|w|, m)) == Sum(tm);
  }

  lemma SumDropZero(a: Vector, z: Vector, b: Vector)
    requires |a| == |z| == |b| && Sum(z) == 0.0
    ensures Sum(Add(Add(a, z), b)) == Sum(a) + Sum(b)
  {
    SumAdd(Add(a, z), b);
    SumAdd(a, z);
  }

  lemma SumScaleZero(u: Vector, e: real)
    requires Sum(u) == 0.0
    ensures Sum(Scale(u, e)) == 0.0
  {
    SumScale(u, e);
  }

  /** Element-wise form of the shift from the constant m to the constant c. */
  lemma ShiftTerms(k: Vector, w: Vector, m: real, c: real, d: real)
    requires Positive(k) && |k| == |w| && d == m - c
    ensures var rc, rm := Sub(w, Constant(|w|, c)), Sub(w, Constant(|w|, m));
            var u := Sub(Mul(k, w), Scale(k, m));
            Mul(k, Mul(rc, rc)) == Add(Add(Mul(k, Mul(rm, rm)), Scale(u, 2.0 * d)), ShiftPenalty(k, d))
  {
    var rc, rm := Sub(w, Constant(|w|, c)), Sub(w, Constant(|w|, m));
    var tc, tm := Mul(k, Mul(rc, rc)), Mul(k, Mul(rm, rm));
    var u := Sub(Mul(k, w), Scale(k, m));
    var q := ShiftPenalty(k, d);
    var total := Add(Add(tm, Scale(u, 2.0 * d)), q);
    forall i | 0 <= i < |k|
      ensures tc[i] == total[i]
    {
      SquareShift(k[i], w[i], m, c, d, rc[i], rm[i]);
    }
  }

  lemma SquareShift(k0: real, w0: real, m: real, c: real, d: real, rc0: real, rm0: real)
    requires d == m - c && rc0 == w0 - c && rm0 == w0 - m
    ensures k0 * (rc0 * rc0) == k0 * (rm0 * rm0) + 2.0 * d * (k0 * w0 - m * k0) + d * d * k0
  {
  }

  /** The weighted residuals about the weighted mean sum to zero. */
  lemma ResidualSumZero(k: Vector, w: Vector, m: real)
    requires |k| == |w| && m * Sum(k) == Dot(k, w)
    ensures Sum(Sub(Mul(k, w), Scale(k, m))) == 0.0
  {
    SumSub(Mul(k, w), Scale(k, m));
    SumScale(k, m);
  }

  /** The weighted mean reproduces a constant window exactly, so the
      constant fit leaves no residual. */
  lemma ConstantWindowFit(lv: Level, n: nat, c: real)
    requires LevelShape(lv, n)
    ensures ConstCoef(lv.kernel, Constant(n, c)) == c
    ensures RssConst(lv, Constant(n, c)) == 0.0
  {
    var w := Constant(n, c);
    ConstCoefBounds(lv.kernel, w, c, c);
    assert Constant(|w|, ConstCoef(lv.kernel, w)) == w;
    WeightedSSSelf(lv.kernel, w);
  }

  /** A window holding one constant value never gets a positive statistic:
      the constant fit is exact, so the statistic is NaN (when the sine/cosine
      fit is exact too) or negative. */
  lemma ConstantWindowStatistic(lv: Level, n: nat, c: real)
    requires LevelShape(lv, n) && n > |lv.pinv| > 1
    ensures PixelF(lv, Constant(n, c)).NaN?
            || (PixelF(lv, Constant(n, c)).Num? && PixelF(lv, Constant(n, c)).v < 0.0)
  {
    var w := Constant(n, c);
    if !AllZero(w) {
      ConstantWindowFit(lv, n, c);
      var rssS := RssSinCos(lv, w);
      WeightedSSNonnegative(lv.kernel, w, MatVec(lv.design, MatVec(lv.pinv, w)));
      if rssS > 0.0 {
        FStatisticSign(0.0, rssS, |lv.pinv|, 1, n);
      }
    }
  }
}
