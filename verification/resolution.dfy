/** The aggregation over widths of lines 155-158 for one pixel: numpy's
    argmax and amax along the width axis of the ratios R = F / Falpha, and
    the sentinel for pixels where no width is significant. */
module Resolution {
  import opened Floats

  /** Index of the first NaN, or |r| when there is none. */
  function FirstNaN(r: seq<Float>): (k: nat)
    ensures k <= |r|
    ensures forall i :: 0 <= i < k ==> !r[i].NaN?
    ensures k < |r| ==> r[k].NaN?
  {
    if |r| == 0 then 0
    else if r[0].NaN? then 0
    else 1 + FirstNaN(r[1..])
  }

  predicate NaNFree(r: seq<Float>)
  {
    forall i :: 0 <= i < |r| ==> !r[i].NaN?
  }

  /** Index of the first largest element of a NaN-free sequence. */
  function FirstMax(r: seq<Float>): (k: nat)
    requires |r| > 0 && NaNFree(r)
    ensures k < |r|
    ensures forall i :: 0 <= i < |r| ==> Le(r[i], r[k])
    ensures forall i :: 0 <= i < k ==> !Le(r[k], r[i])
  {
    if |r| == 1 then 0
    else
      var m := 1 + FirstMax(r[1..]);
      if Le(r[m], r[0]) then 0 else m
  }

  /** np.argmax: the first NaN if there is one, else the first maximum. */
  function ArgMax(r: seq<Float>): (k: nat)
    requires |r| > 0
    ensures k < |r|
    ensures IsArgMax(r, k)
  {
    if FirstNaN(r) < |r| then FirstNaN(r) else FirstMax(r)
  }

  /** np.amax: NaN if there is a NaN, else the largest element. */
  function Amax(r: seq<Float>): (m: Float)
    requires |r| > 0
    ensures m.NaN? <==> !NaNFree(r)
    ensures NaNFree(r) ==> forall i :: 0 <= i < |r| ==> Le(r[i], m)
  {
    if FirstNaN(r) < |r| then NaN else r[FirstMax(r)]
  }

  /** What np.argmax promises, stated independently of how it scans. */
  predicate IsArgMax(r: seq<Float>, k: nat)
  {
    k < |r| &&
    if NaNFree(r) then
      (forall i :: 0 <= i < |r| ==> Le(r[i], r[k])) && (forall i :: 0 <= i < k ==> !Le(r[k], r[i]))
    else
      r[k].NaN? && forall i :: 0 <= i < k ==> !r[i].NaN?
  }

  /** ArgMax is the one index meeting that description. */
  lemma ArgMaxUnique(r: seq<Float>, k: nat)
    requires |r| > 0
    ensures IsArgMax(r, k) <==> k == ArgMax(r)
  {
  }

  /** The maximum value sits at the argmax index. */
  lemma AmaxAtArgMax(r: seq<Float>)
    requires |r| > 0
    ensures Amax(r) == r[ArgMax(r)] || (Amax(r).NaN? && r[ArgMax(r)].NaN?)
  {
  }

  /** Line 158 for one pixel: the width offset of the largest ratio, or the
      absolute width widthMax when that ratio is not above 1. */
  function Resolve(r: seq<Float>, widthMax: nat): (res: nat)
    requires |r| > 0
    ensures AtMostOne(Amax(r)) ==> res == widthMax
    ensures !AtMostOne(Amax(r)) ==> IsArgMax(r, res) && !AtMostOne(r[res])
  {
    if AtMostOne(Amax(r)) then widthMax else ArgMax(r)
  }

  /** The result is the sentinel or an offset into the width axis. */
  lemma ResolveRange(r: seq<Float>, widthMax: nat)
    requires |r| > 0
    ensures Resolve(r, widthMax) == widthMax || Resolve(r, widthMax) < |r|
  {
  }

  /** When the width axis is shorter than widthMax (width0 >= 1) the sentinel
      cannot be mistaken for an offset: the result is widthMax exactly when
      the largest ratio is at most 1. */
  lemma ResolveSentinel(r: seq<Float>, widthMax: nat)
    requires 0 < |r| <= widthMax
    ensures Resolve(r, widthMax) == widthMax <==> AtMostOne(Amax(r))
  {
  }

  /** A ratio above 1 (or a NaN) makes the result the first index of the
      largest ratio, and that ratio itself is above 1 or NaN. */
  lemma ResolveSignificant(r: seq<Float>, widthMax: nat)
    requires |r| > 0 && !AtMostOne(Amax(r))
    ensures Resolve(r, widthMax) == ArgMax(r)
    ensures IsArgMax(r, Resolve(r, widthMax))
    ensures !AtMostOne(r[Resolve(r, widthMax)])
  {
    ArgMaxUnique(r, ArgMax(r));
  }

  /** A result other than the sentinel is an offset whose ratio is above 1
      or NaN, however long the width axis is. */
  lemma ResolveChosen(r: seq<Float>, widthMax: nat)
    requires 0 < |r| && Resolve(r, widthMax) != widthMax
    ensures Resolve(r, widthMax) < |r| && !AtMostOne(r[Resolve(r, widthMax)])
  {
    ResolveSignificant(r, widthMax);
  }

  /** On a NaN-free width axis the largest ratio is at most 1 exactly when
      every ratio is. */
  lemma AmaxAtMostOne(r: seq<Float>)
    requires |r| > 0 && NaNFree(r)
    ensures AtMostOne(Amax(r)) <==> forall i :: 0 <= i < |r| ==> AtMostOne(r[i])
  {
    var m := FirstMax(r);
    if forall i :: 0 <= i < |r| ==> AtMostOne(r[i]) {
      assert AtMostOne(r[m]);
    }
  }
}
