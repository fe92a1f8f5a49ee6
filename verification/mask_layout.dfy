/** The row-major enumeration of the masked pixels of an n-by-n image: the
    order in which the gather (lines 66-70) packs windows and the scatter
    (lines 147-151) unpacks statistics, with tmpIdx as the position in it. */
module MaskLayout {
  import opened Vectors

  /** The region of interest BW, one boolean per pixel. */
  type Mask = seq<seq<bool>>

  datatype Pixel = Pixel(row: nat, col: nat)

  /** An n-by-n grid; n is the side length taken from data.shape[0]. */
  predicate IsSquare<T>(g: seq<seq<T>>, n: nat)
  {
    |g| == n && forall r :: 0 <= r < n ==> |g[r]| == n
  }

  predicate InGrid(p: Pixel, n: nat)
  {
    p.row < n && p.col < n
  }

  predicate IsMasked(mask: Mask, p: Pixel)
    requires IsSquare(mask, |mask|) && InGrid(p, |mask|)
  {
    mask[p.row][p.col]
  }

  /** A loop position of the double loop over (i, j): every pixel before it
      in row-major order has been visited. (n, 0) is the position after the
      last pixel. */
  predicate Cursor(n: nat, i: nat, j: nat)
  {
    i <= n && j <= n && (i == n ==> j == 0)
  }

  /** Pixel p is visited before loop position (i, j). */
  predicate Precedes(p: Pixel, i: nat, j: nat)
  {
    p.row < i || (p.row == i && p.col < j)
  }

  /** Strict row-major order on pixels. */
  predicate RowMajorLess(p: Pixel, q: Pixel)
  {
    Precedes(p, q.row, q.col)
  }

  /** The masked pixels the double loop has met before position (i, j), in
      the order it met them. */
  function Before(mask: Mask, i: nat, j: nat): seq<Pixel>
    requires IsSquare(mask, |mask|) && Cursor(|mask|, i, j)
    decreases i, j
  {
    if j > 0 then
      Before(mask, i, j - 1) + (if mask[i][j - 1] then [Pixel(i, j - 1)] else [])
    else if i > 0 then
      Before(mask, i - 1, |mask|)
    else
      []
  }

  /** All masked pixels in row-major order. */
  function Masked(mask: Mask): seq<Pixel>
    requires IsSquare(mask, |mask|)
  {
    Before(mask, |mask|, 0)
  }

  /** tmpIdx when the loops reach pixel p: how many masked pixels precede it. */
  function Rank(mask: Mask, p: Pixel): nat
    requires IsSquare(mask, |mask|) && InGrid(p, |mask|)
  {
    |Before(mask, p.row, p.col)|
  }

  /** mask.sum(): the number of true entries. */
  function CountTrue(s: seq<bool>): nat
  {
    if |s| == 0 then 0 else (if s[0] then 1 else 0) + CountTrue(s[1..])
  }

  function MaskSum(mask: Mask): nat
  {
    CountTrue(Flatten(mask))
  }

  /** Before(i, j) holds exactly the masked pixels preceding (i, j). */
  lemma {:induction false} BeforeMembers(mask: Mask, i: nat, j: nat, p: Pixel)
    requires IsSquare(mask, |mask|) && Cursor(|mask|, i, j)
    ensures p in Before(mask, i, j) <==>
              InGrid(p, |mask|) && IsMasked(mask, p) && Precedes(p, i, j)
    decreases i, j
  {
    if j > 0 {
      BeforeMembers(mask, i, j - 1, p);
    } else if i > 0 {
      BeforeMembers(mask, i - 1, |mask|, p);
    }
  }

  /** Before(i, j) lists its pixels in strictly increasing row-major order. */
  lemma {:induction false} BeforeOrdered(mask: Mask, i: nat, j: nat)
    requires IsSquare(mask, |mask|) && Cursor(|mask|, i, j)
    ensures forall a, b :: 0 <= a < b < |Before(mask, i, j)| ==>
              RowMajorLess(Before(mask, i, j)[a], Before(mask, i, j)[b])
    decreases i, j
  {
    if j > 0 {
      BeforeOrdered(mask, i, j - 1);
      var prev := Before(mask, i, j - 1);
      forall a | 0 <= a < |prev|
        ensures RowMajorLess(prev[a], Pixel(i, j - 1))
      {
        BeforeMembers(mask, i, j - 1, prev[a]);
      }
    } else if i > 0 {
      BeforeOrdered(mask, i - 1, |mask|);
    }
  }

  /** An earlier loop position has met a prefix of what a later one met. */
  lemma {:induction false} BeforePrefix(mask: Mask, i1: nat, j1: nat, i2: nat, j2: nat)
    requires IsSquare(mask, |mask|) && Cursor(|mask|, i1, j1) && Cursor(|mask|, i2, j2)
    requires i1 < i2 || (i1 == i2 && j1 <= j2)
    ensures Before(mask, i1, j1) <= Before(mask, i2, j2)
    decreases i2, j2
  {
    if i1 == i2 && j1 == j2 {
    } else if j2 > 0 {
      BeforePrefix(mask, i1, j1, i2, j2 - 1);
    } else {
      BeforePrefix(mask, i1, j1, i2 - 1, |mask|);
    }
  }

  /** Masked enumerates exactly the masked pixels. */
  lemma MaskedMembers(mask: Mask, p: Pixel)
    requires IsSquare(mask, |mask|)
    ensures p in Masked(mask) <==> InGrid(p, |mask|) && IsMasked(mask, p)
  {
    BeforeMembers(mask, |mask|, 0, p);
  }

  /** ... in strictly increasing row-major order, so without repetition. */
  lemma MaskedOrdered(mask: Mask)
    requires IsSquare(mask, |mask|)
    ensures forall a, b :: 0 <= a < b < |Masked(mask)| ==>
              RowMajorLess(Masked(mask)[a], Masked(mask)[b])
  {
    BeforeOrdered(mask, |mask|, 0);
  }

  /** The rank of a masked pixel is its index in the enumeration. */
  lemma RankOfMasked(mask: Mask, p: Pixel)
    requires IsSquare(mask, |mask|) && InGrid(p, |mask|) && IsMasked(mask, p)
    ensures Rank(mask, p) < |Masked(mask)|
    ensures Masked(mask)[Rank(mask, p)] == p
  {
    var n := |mask|;
    assert Before(mask, p.row, p.col + 1) == Before(mask, p.row, p.col) + [p];
    BeforePrefix(mask, p.row, p.col + 1, n, 0);
  }

  /** The k-th masked pixel has rank k: ranks and indices are inverse. */
  lemma MaskedRank(mask: Mask, k: nat)
    requires IsSquare(mask, |mask|) && k < |Masked(mask)|
    ensures InGrid(Masked(mask)[k], |mask|) && IsMasked(mask, Masked(mask)[k])
    ensures Rank(mask, Masked(mask)[k]) == k
  {
    var p := Masked(mask)[k];
    MaskedMembers(mask, p);
    RankOfMasked(mask, p);
    MaskedOrdered(mask);
  }

  lemma {:induction false} CountTrueAppend(s: seq<bool>, t: seq<bool>)
    ensures CountTrue(s + t) == CountTrue(s) + CountTrue(t)
  {
    if |s| > 0 {
      assert (s + t)[1..] == s[1..] + t;
      CountTrueAppend(s[1..], t);
    } else {
      assert s + t == t;
    }
  }

  lemma {:induction false} FlattenSnoc<T>(rows: seq<seq<T>>, i: nat)
    requires i < |rows|
    ensures Flatten(rows[..i + 1]) == Flatten(rows[..i]) + rows[i]
  {
    if i > 0 {
      assert rows[..i + 1][1..] == rows[1..][..i];
      assert rows[..i][1..] == rows[1..][..i - 1];
      FlattenSnoc(rows[1..], i - 1);
    } else {
      assert rows[..1][1..] == [];
    }
  }

  /** The loops' count at position (i, j) is the number of true entries in
      the complete rows above plus those left of column j in row i. */
  lemma {:induction false} BeforeCount(mask: Mask, i: nat, j: nat)
    requires IsSquare(mask, |mask|) && Cursor(|mask|, i, j) && i < |mask|
    ensures |Before(mask, i, j)| == CountTrue(Flatten(mask[..i])) + CountTrue(mask[i][..j])
    decreases i, j
  {
    if j > 0 {
      BeforeCount(mask, i, j - 1);
      assert mask[i][..j] == mask[i][..j - 1] + [mask[i][j - 1]];
      CountTrueAppend(mask[i][..j - 1], [mask[i][j - 1]]);
    } else if i > 0 {
      BeforeCount(mask, i - 1, |mask|);
      assert mask[i - 1][..|mask|] == mask[i - 1];
      FlattenSnoc(mask, i - 1);
      CountTrueAppend(Flatten(mask[..i - 1]), mask[i - 1]);
    } else {
      assert mask[..0] == [];
    }
  }

  /** The enumeration has mask.sum() entries: the number of rows of tmpData
      (line 65) and the final value of tmpIdx. */
  lemma MaskedCount(mask: Mask)
    requires IsSquare(mask, |mask|)
    ensures |Masked(mask)| == MaskSum(mask)
  {
    var n := |mask|;
    if n > 0 {
      BeforeCount(mask, n - 1, n);
      assert mask[n - 1][..n] == mask[n - 1];
      FlattenSnoc(mask, n - 1);
      CountTrueAppend(Flatten(mask[..n - 1]), mask[n - 1]);
      assert mask[..n] == mask;
    }
  }
}
