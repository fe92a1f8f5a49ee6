/** One width of the sweep: cut the window of every masked pixel out of the
    image (lines 60-71), evaluate the statistic of each packed window
    (lines 111-136) and put the statistics back on the pixel grid
    (lines 141-152). */
module WidthSweep {
  import opened Floats
  import opened Vectors
  import opened CriticalValues
  import opened MaskLayout
  import opened LocalRegression

  /** The image `data`: n rows of n intensities. */
  type Image = seq<seq<real>>

  /** The window of half-width w around p lies inside the n-by-n grid, so
      the slices of line 69 have their full length. */
  predicate WindowInside(p: Pixel, w: nat, n: nat)
  {
    w <= p.row && p.row + w < n && w <= p.col && p.col + w < n
  }

  /** Every masked pixel has its window of half-width w inside the image. */
  predicate MaskInside(mask: Mask, w: nat)
    requires IsSquare(mask, |mask|)
  {
    forall i, j :: 0 <= i < |mask| && 0 <= j < |mask| && mask[i][j] ==>
      WindowInside(Pixel(i, j), w, |mask|)
  }

  predicate AllInside(ps: seq<Pixel>, w: nat, n: nat)
  {
    forall k :: 0 <= k < |ps| ==> WindowInside(ps[k], w, n)
  }

  /** The rows of the slice data[i-w:i+w+1, j-w:j+w+1]. */
  function WindowRows(img: Image, p: Pixel, w: nat): (rows: seq<seq<real>>)
    requires IsSquare(img, |img|) && WindowInside(p, w, |img|)
    ensures |rows| == Side(w)
    ensures forall a :: 0 <= a < Side(w) ==> |rows[a]| == Side(w)
  {
    seq(Side(w), a requires 0 <= a < Side(w) => img[p.row - w + a][p.col - w .. p.col + w + 1])
  }

  /** The flattened window of line 69: Dof(w) samples in row-major order. */
  function Window(img: Image, p: Pixel, w: nat): (r: Vector)
    requires IsSquare(img, |img|) && WindowInside(p, w, |img|)
    ensures |r| == Dof(w)
  {
    FlattenLength(WindowRows(img, p, w), Side(w));
    Flatten(WindowRows(img, p, w))
  }

  /** Sample a * Side(w) + b of the window is the image pixel at offset
      (a - w, b - w) from the centre. */
  lemma WindowAt(img: Image, p: Pixel, w: nat, a: nat, b: nat)
    requires IsSquare(img, |img|) && WindowInside(p, w, |img|)
    requires a < Side(w) && b < Side(w)
    ensures a * Side(w) + b < Dof(w)
    ensures Window(img, p, w)[a * Side(w) + b] == img[p.row - w + a][p.col - w + b]
  {
    FlattenAt(WindowRows(img, p, w), Side(w), a, b);
  }

  /** Windows are nested: inside at some width means inside at every
      smaller width. */
  lemma InsideMonotone(mask: Mask, v: nat, w: nat)
    requires IsSquare(mask, |mask|) && v <= w && MaskInside(mask, w)
    ensures MaskInside(mask, v)
  {
  }

  lemma BeforeInside(mask: Mask, w: nat, i: nat, j: nat)
    requires IsSquare(mask, |mask|) && Cursor(|mask|, i, j) && MaskInside(mask, w)
    ensures AllInside(Before(mask, i, j), w, |mask|)
  {
    forall k | 0 <= k < |Before(mask, i, j)|
      ensures WindowInside(Before(mask, i, j)[k], w, |mask|)
    {
      BeforeMembers(mask, i, j, Before(mask, i, j)[k]);
    }
  }

  /** The windows of a list of pixels, in list order. */
  function WindowsOf(img: Image, ps: seq<Pixel>, w: nat): (rows: seq<Vector>)
    requires IsSquare(img, |img|) && AllInside(ps, w, |img|)
    ensures |rows| == |ps|
    ensures forall k :: 0 <= k < |rows| ==> |rows[k]| == Dof(w)
  {
    seq(|ps|, k requires 0 <= k < |ps| => Window(img, ps[k], w))
  }

  /** tmpData of lines 64-71: one window per masked pixel, in row-major order. */
  function Gathered(img: Image, mask: Mask, w: nat): seq<Vector>
    requires IsSquare(img, |img|) && IsSquare(mask, |img|) && MaskInside(mask, w)
  {
    BeforeInside(mask, w, |mask|, 0);
    WindowsOf(img, Masked(mask), w)
  }

  /** Row Rank(p) of the packed data is the window of p, and there are
      mask.sum() rows. */
  lemma GatheredAt(img: Image, mask: Mask, w: nat, i: nat, j: nat)
    requires IsSquare(img, |img|) && IsSquare(mask, |img|) && MaskInside(mask, w)
    requires i < |img| && j < |img| && mask[i][j]
    ensures |Gathered(img, mask, w)| == MaskSum(mask)
    ensures Rank(mask, Pixel(i, j)) < |Gathered(img, mask, w)|
    ensures Gathered(img, mask, w)[Rank(mask, Pixel(i, j))] == Window(img, Pixel(i, j), w)
  {
    MaskedCount(mask);
    RankOfMasked(mask, Pixel(i, j));
  }

  lemma WindowsOfSnoc(img: Image, ps: seq<Pixel>, p: Pixel, w: nat)
    requires IsSquare(img, |img|) && AllInside(ps, w, |img|) && WindowInside(p, w, |img|)
    ensures AllInside(ps + [p], w, |img|)
    ensures WindowsOf(img, ps + [p], w) == WindowsOf(img, ps, w) + [Window(img, p, w)]
  {
    var qs := ps + [p];
    assert forall k :: 0 <= k < |ps| ==> qs[k] == ps[k];
  }

  /** The gather loop of lines 64-70. It produces mask.sum() rows of Dof(w)
      samples, and the row with index tmpIdx of a masked pixel is that
      pixel's window. */
  method Gather(img: Image, mask: Mask, w: nat) returns (rows: seq<Vector>)
    requires IsSquare(img, |img|) && IsSquare(mask, |img|) && MaskInside(mask, w)
    ensures rows == Gathered(img, mask, w)
    ensures |rows| == MaskSum(mask)
    ensures forall k :: 0 <= k < |rows| ==> |rows[k]| == Dof(w)
    ensures forall i, j :: 0 <= i < |mask| && 0 <= j < |mask| && mask[i][j] ==>
              Rank(mask, Pixel(i, j)) < |rows| && rows[Rank(mask, Pixel(i, j))] == Window(img, Pixel(i, j), w)
  {
    var n := |img|;
    rows := [];
    var i := 0;
    while i < n
      invariant i <= n
      invariant AllInside(Before(mask, i, 0), w, n)
      invariant rows == WindowsOf(img, Before(mask, i, 0), w)
    {
      var j := 0;
      while j < n
        invariant j <= n
        invariant AllInside(Before(mask, i, j), w, n)
        invariant rows == WindowsOf(img, Before(mask, i, j), w)
      {
        if mask[i][j] {
          WindowsOfSnoc(img, Before(mask, i, j), Pixel(i, j), w);
          rows := rows + [Window(img, Pixel(i, j), w)];
        }
        j := j + 1;
      }
      assert Before(mask, i + 1, 0) == Before(mask, i, n);
      i := i + 1;
    }
    MaskedCount(mask);
    forall i, j | 0 <= i < n && 0 <= j < n && mask[i][j]
      ensures Rank(mask, Pixel(i, j)) < |rows| && rows[Rank(mask, Pixel(i, j))] == Window(img, Pixel(i, j), w)
    {
      GatheredAt(img, mask, w, i, j);
    }
  }

  /** The value the scatter writes at pixel (i, j): the next packed value
      for a masked pixel, zero elsewhere. */
  function Unpack<T>(mask: Mask, vals: seq<T>, zero: T, i: nat, j: nat): T
    requires IsSquare(mask, |mask|) && |vals| == |Masked(mask)|
    requires i < |mask| && j < |mask|
  {
    if mask[i][j] then
      RankOfMasked(mask, Pixel(i, j));
      vals[Rank(mask, Pixel(i, j))]
    else
      zero
  }

  /** tmpF of lines 145-151. */
  function Scattered<T>(mask: Mask, vals: seq<T>, zero: T): (g: seq<seq<T>>)
    requires IsSquare(mask, |mask|) && |vals| == |Masked(mask)|
    ensures IsSquare(g, |mask|)
  {
    seq(|mask|, i requires 0 <= i < |mask| =>
      seq(|mask|, j requires 0 <= j < |mask| => Unpack(mask, vals, zero, i, j)))
  }

  /** Reads a grid back at the masked pixels, in row-major order. */
  function ReadBack<T>(mask: Mask, grid: seq<seq<T>>): (vals: seq<T>)
    requires IsSquare(mask, |mask|) && IsSquare(grid, |mask|)
    ensures |vals| == |Masked(mask)|
  {
    seq(|Masked(mask)|, k requires 0 <= k < |Masked(mask)| =>
      MaskedRank(mask, k);
      grid[Masked(mask)[k].row][Masked(mask)[k].col])
  }

  /** The scatter loop of lines 145-151, writing a fresh grid. */
  method Scatter<T>(mask: Mask, vals: seq<T>, zero: T) returns (grid: seq<seq<T>>)
    requires IsSquare(mask, |mask|) && |vals| == |Masked(mask)|
    ensures grid == Scattered(mask, vals, zero)
    ensures ReadBack(mask, grid) == vals
    ensures forall i, j :: 0 <= i < |mask| && 0 <= j < |mask| && !mask[i][j] ==> grid[i][j] == zero
  {
    var n := |mask|;
    grid := [];
    var tmpIdx := 0;
    var i := 0;
    while i < n
      invariant i <= n
      invariant tmpIdx == |Before(mask, i, 0)|
      invariant |grid| == i
      invariant forall r :: 0 <= r < i ==> grid[r] == Scattered(mask, vals, zero)[r]
    {
      var row: seq<T> := [];
      var j := 0;
      while j < n
        invariant j <= n
        invariant tmpIdx == |Before(mask, i, j)|
        invariant |row| == j
        invariant forall c :: 0 <= c < j ==> row[c] == Unpack(mask, vals, zero, i, c)
      {
        if mask[i][j] {
          RankOfMasked(mask, Pixel(i, j));
          row := row + [vals[tmpIdx]];
          tmpIdx := tmpIdx + 1;
        } else {
          row := row + [zero];
        }
        j := j + 1;
      }
      assert row == Scattered(mask, vals, zero)[i];
      assert Before(mask, i + 1, 0) == Before(mask, i, n);
      grid := grid + [row];
      i := i + 1;
    }
    ScatterReadBack(mask, vals, zero);
  }

  /** Scatter then read back is the identity on the packed values. */
  lemma ScatterReadBack<T>(mask: Mask, vals: seq<T>, zero: T)
    requires IsSquare(mask, |mask|) && |vals| == |Masked(mask)|
    ensures ReadBack(mask, Scattered(mask, vals, zero)) == vals
  {
    forall k | 0 <= k < |vals|
      ensures ReadBack(mask, Scattered(mask, vals, zero))[k] == vals[k]
    {
      MaskedRank(mask, k);
    }
  }

  /** Values computed per pixel and packed in mask order land back on their
      own pixel; every other pixel gets zero. */
  lemma GatherScatter<T>(mask: Mask, f: Pixel -> T, zero: T, i: nat, j: nat)
    requires IsSquare(mask, |mask|) && i < |mask| && j < |mask|
    ensures Scattered(mask, seq(|Masked(mask)|, k requires 0 <= k < |Masked(mask)| => f(Masked(mask)[k])), zero)[i][j]
            == if mask[i][j] then f(Pixel(i, j)) else zero
  {
    if mask[i][j] {
      RankOfMasked(mask, Pixel(i, j));
    }
  }

  /** The statistics of one width on the pixel grid (F[..., width-width0]),
      each masked pixel's window evaluated with the chosen statistic. */
  function LevelMap(stat: Statistic, img: Image, mask: Mask, lv: Level, w: nat): (g: seq<seq<Float>>)
    requires IsSquare(img, |img|) && IsSquare(mask, |img|) && MaskInside(mask, w)
    requires LevelShape(lv, Dof(w))
    ensures IsSquare(g, |img|)
  {
    var rows := Gathered(img, mask, w);
    Scattered(mask, seq(|rows|, k requires 0 <= k < |rows| => WindowStatistic(stat, lv, rows[k])), Num(0.0))
  }

  /** A masked pixel carries the statistic of its own window, every other
      pixel zero. */
  lemma LevelMapAt(stat: Statistic, img: Image, mask: Mask, lv: Level, w: nat, i: nat, j: nat)
    requires IsSquare(img, |img|) && IsSquare(mask, |img|) && MaskInside(mask, w)
    requires LevelShape(lv, Dof(w))
    requires i < |img| && j < |img|
    ensures mask[i][j] ==> LevelMap(stat, img, mask, lv, w)[i][j] == WindowStatistic(stat, lv, Window(img, Pixel(i, j), w))
    ensures !mask[i][j] ==> LevelMap(stat, img, mask, lv, w)[i][j] == Num(0.0)
  {
    if mask[i][j] {
      RankOfMasked(mask, Pixel(i, j));
    }
  }

  /** Lines 111-152 for one width, in the source's order: gather, compute
      the statistic of every packed window, scatter. With AsWritten this is
      the script's FLevel and tmpF. */
  method ComputeLevel(stat: Statistic, img: Image, mask: Mask, lv: Level, w: nat) returns (tmpF: seq<seq<Float>>)
    requires IsSquare(img, |img|) && IsSquare(mask, |img|) && MaskInside(mask, w)
    requires LevelShape(lv, Dof(w))
    ensures tmpF == LevelMap(stat, img, mask, lv, w)
    ensures forall i, j :: 0 <= i < |img| && 0 <= j < |img| && mask[i][j] ==>
              tmpF[i][j] == WindowStatistic(stat, lv, Window(img, Pixel(i, j), w))
    ensures forall i, j :: 0 <= i < |img| && 0 <= j < |img| && !mask[i][j] ==> tmpF[i][j] == Num(0.0)
  {
    var rows := Gather(img, mask, w);
    var fLevel: seq<Float> := [];
    var k := 0;
    while k < |rows|
      invariant k <= |rows|
      invariant fLevel == seq(k, t requires 0 <= t < k => WindowStatistic(stat, lv, rows[t]))
    {
      fLevel := fLevel + [WindowStatistic(stat, lv, rows[k])];
      k := k + 1;
    }
    tmpF := Scatter(mask, fLevel, Num(0.0));
    forall i, j | 0 <= i < |img| && 0 <= j < |img|
      ensures mask[i][j] ==> tmpF[i][j] == WindowStatistic(stat, lv, Window(img, Pixel(i, j), w))
      ensures !mask[i][j] ==> tmpF[i][j] == Num(0.0)
    {
      LevelMapAt(stat, img, mask, lv, w, i, j);
    }
  }
}
