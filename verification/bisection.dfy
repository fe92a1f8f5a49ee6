/** Python's bisect.bisect (bisect_right) over a sequence of reals, and a
    linear-scan reference for the index it finds on sorted input. */
module Bisection {

  predicate Sorted(a: seq<real>)
  {
    forall i, j :: 0 <= i < j < |a| ==> a[i] <= a[j]
  }

  /** Reference: the first index whose element exceeds x, found by scanning
      from the left (|a| when there is none). */
  function FirstAbove(a: seq<real>, x: real): (k: nat)
    ensures k <= |a|
    ensures forall i :: 0 <= i < k ==> a[i] <= x
    ensures k < |a| ==> x < a[k]
  {
    if |a| == 0 then 0
    else if x < a[0] then 0
    else 1 + FirstAbove(a[1..], x)
  }

  /** The binary-search loop of bisect_right on the window [lo, hi):
      mid = (lo + hi) // 2; if x < a[mid] then hi = mid else lo = mid + 1.
      Whatever the order of a, the result k is a crossing point: the element
      before it is at most x and the element at it exceeds x. */
  function BisectLoop(a: seq<real>, x: real, lo: nat, hi: nat): (k: nat)
    requires lo <= hi <= |a|
    requires lo == 0 || a[lo - 1] <= x
    requires hi == |a| || x < a[hi]
    ensures lo <= k <= hi
    ensures k == 0 || a[k - 1] <= x
    ensures k == |a| || x < a[k]
    decreases hi - lo
  {
    if lo < hi then
      var mid := (lo + hi) / 2;
      if x < a[mid] then BisectLoop(a, x, lo, mid)
      else BisectLoop(a, x, mid + 1, hi)
    else lo
  }

  /** bisect.bisect(a, x): the insertion point of x to the right of any
      equal elements. On sorted input it splits a into the elements at most x
      and the elements above x. */
  function BisectRight(a: seq<real>, x: real): (k: nat)
    ensures k <= |a|
    ensures k == 0 || a[k - 1] <= x
    ensures k == |a| || x < a[k]
    ensures Sorted(a) ==> forall i :: 0 <= i < k ==> a[i] <= x
    ensures Sorted(a) ==> forall i :: k <= i < |a| ==> x < a[i]
  {
    BisectLoop(a, x, 0, |a|)
  }

  /** On sorted input the binary search and the linear scan agree. */
  lemma BisectIsFirstAbove(a: seq<real>, x: real)
    requires Sorted(a)
    ensures BisectRight(a, x) == FirstAbove(a, x)
  {
  }

  /** When the first element does not exceed x the insertion point is past it. */
  lemma BisectPositive(a: seq<real>, x: real)
    requires |a| > 0 && a[0] <= x
    ensures BisectRight(a, x) >= 1
  {
  }
}
