/** The precomputed table of critical F values (fAlphaPreComp) and the
    window geometry that indexes it. */
module CriticalValues {
  import opened Bisection

  /** Smallest degree of freedom the table populates. */
  const MinTableDof: nat := 10

  /** Side of the square window of half-width w. */
  function Side(w: nat): nat
  {
    2 * w + 1
  }

  /** Samples per window: the error degrees of freedom of width w. */
  function Dof(w: nat): nat
  {
    Side(w) * Side(w)
  }

  /** The critical value line 51 stores for bisect index k: stepSize times k. */
  function GridValue(stepSize: real, k: nat): real
  {
    stepSize * k as real
  }

  /** The table: entry dof holds stepSize times the bisect_right insertion
      point of alpha in the sampled CDF for that dof; entries below
      MinTableDof stay zero. cdf(dof) stands for the F CDF sampled on the
      statistic grid. */
  function CriticalTable(maxDof: nat, stepSize: real, alpha: real, cdf: nat -> seq<real>): (t: seq<real>)
    ensures |t| == maxDof + 1
    ensures forall dof :: 0 <= dof < MinTableDof && dof <= maxDof ==> t[dof] == 0.0
    ensures forall dof :: MinTableDof <= dof <= maxDof && Sorted(cdf(dof)) ==>
              t[dof] == GridValue(stepSize, FirstAbove(cdf(dof), alpha))
  {
    var t := seq(maxDof + 1, dof requires 0 <= dof <= maxDof =>
               if dof < MinTableDof then 0.0 else GridValue(stepSize, BisectRight(cdf(dof), alpha)));
    forall dof | MinTableDof <= dof <= maxDof && Sorted(cdf(dof))
      ensures t[dof] == GridValue(stepSize, FirstAbove(cdf(dof), alpha))
    {
      BisectIsFirstAbove(cdf(dof), alpha);
    }
    t
  }

  /** A populated entry is positive when the step is positive and the CDF
      starts at or below alpha (an F CDF is 0 at statistic 0). */
  lemma CriticalValuePositive(maxDof: nat, stepSize: real, alpha: real, cdf: nat -> seq<real>, dof: nat)
    requires MinTableDof <= dof <= maxDof
    requires stepSize > 0.0
    requires |cdf(dof)| > 0 && cdf(dof)[0] <= alpha
    ensures CriticalTable(maxDof, stepSize, alpha, cdf)[dof] > 0.0
  {
    BisectPositive(cdf(dof), alpha);
    var k := BisectRight(cdf(dof), alpha);
    assert CriticalTable(maxDof, stepSize, alpha, cdf)[dof] == GridValue(stepSize, k);
    GridValuePositive(stepSize, k);
  }

  lemma GridValuePositive(stepSize: real, k: nat)
    requires stepSize > 0.0 && k >= 1
    ensures GridValue(stepSize, k) > 0.0
  {
    assert stepSize * k as real >= stepSize * 1.0;
  }

  /** Every width in [width0, widthMax] with width0 >= 2 has its degrees of
      freedom inside the populated range [MinTableDof, Dof(widthMax)]. */
  lemma {:induction false} DofInTable(width0: nat, width: nat, widthMax: nat)
    requires 2 <= width0 <= width <= widthMax
    ensures MinTableDof <= Dof(width) <= Dof(widthMax)
  {
    DofMonotone(2, width);
    DofMonotone(width, widthMax);
  }

  lemma DofMonotone(v: nat, w: nat)
    requires v <= w
    ensures Dof(v) <= Dof(w)
  {
    assert Side(v) * Side(v) <= Side(v) * Side(w) <= Side(w) * Side(w);
  }

  /** Width 1 would fall below the populated range. */
  lemma WidthOneUnpopulated()
    ensures Dof(1) < MinTableDof
  {
  }
}
