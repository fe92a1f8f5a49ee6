/** The whole resolution map of lines 35-158: the parameters, the table of
    critical values, the statistic of every width at every pixel, the ratio
    to the critical value and the choice of a width per pixel. */
module LocalResolution {
  import opened Basics
  import opened Bisection
  import opened Floats
  import opened Vectors
  import DirectionBasis
  import opened CriticalValues
  import opened MaskLayout
  import opened LocalRegression
  import opened WidthSweep
  import opened Resolution

  /** The user parameters of lines 35-41. */
  datatype Config = Config(width0: nat, widthMax: nat, alpha: real, angleStep: real, stepSize: real)

  /** The values the script sets. */
  const Default: Config :=
    Config(2, 10, 1.0 - 0.001, DirectionBasis.Pi / 4.0, 0.01)

  /** Parameters the script can run with: a non-empty range of widths (an
      empty one makes np.amax fail), a positive angle step and, when the
      table loop of lines 46-51 runs at all (widthMax >= 2, so maxDof >= 10),
      a positive statistic step (line 48 divides by it and needs a positive
      count). */
  predicate ValidConfig(cfg: Config)
  {
    cfg.width0 <= cfg.widthMax && cfg.angleStep > 0.0 && (cfg.widthMax >= 2 ==> cfg.stepSize > 0.0)
  }

  /** Length of the width axis of F. */
  function NumWidths(cfg: Config): nat
  {
    if cfg.widthMax < cfg.width0 then 0 else cfg.widthMax - cfg.width0 + 1
  }

  /** maxDegreeOfFreedom of line 42. */
  function MaxDof(cfg: Config): nat
  {
    Dof(cfg.widthMax)
  }

  /** The kernel, design matrix and pseudo-inverse of each width, which lines
      77-105 compute: offset o belongs to width width0 + o, has Dof of that
      width samples and numComb basis functions. */
  predicate LevelsFit(cfg: Config, levels: seq<Level>)
    requires ValidConfig(cfg)
  {
    |levels| == NumWidths(cfg) &&
    forall o :: 0 <= o < |levels| ==>
      LevelShape(levels[o], Dof(cfg.width0 + o))
      && |levels[o].pinv| == DirectionBasis.NumComb(DirectionBasis.NumDirections(cfg.angleStep))
  }

  /** Falpha at width offset o (line 108): the table entry for that width's
      degrees of freedom. */
  function Falpha(cfg: Config, cdf: nat -> seq<real>, o: nat): real
    requires ValidConfig(cfg) && o < NumWidths(cfg)
  {
    DofMonotone(cfg.width0 + o, cfg.widthMax);
    CriticalTable(MaxDof(cfg), cfg.stepSize, cfg.alpha, cdf)[Dof(cfg.width0 + o)]
  }

  /** What Falpha is: 0 for a width below the populated part of the table,
      otherwise the grid value at the first index whose CDF value exceeds
      alpha. */
  lemma FalphaTable(cfg: Config, cdf: nat -> seq<real>, o: nat)
    requires ValidConfig(cfg) && o < NumWidths(cfg)
    ensures Dof(cfg.width0 + o) < MinTableDof ==> Falpha(cfg, cdf, o) == 0.0
    ensures MinTableDof <= Dof(cfg.width0 + o) && Sorted(cdf(Dof(cfg.width0 + o))) ==>
              Falpha(cfg, cdf, o) == GridValue(cfg.stepSize, FirstAbove(cdf(Dof(cfg.width0 + o)), cfg.alpha))
  {
    DofMonotone(cfg.width0 + o, cfg.widthMax);
  }

  /** F of line 152: one grid of statistics per width offset. */
  function Stack(cfg: Config, stat: Statistic, levels: seq<Level>, img: Image, mask: Mask): (f: seq<seq<seq<Float>>>)
    requires ValidConfig(cfg) && LevelsFit(cfg, levels)
    requires IsSquare(img, |img|) && IsSquare(mask, |img|) && MaskInside(mask, cfg.widthMax)
    ensures |f| == NumWidths(cfg)
    ensures forall o :: 0 <= o < |f| ==> IsSquare(f[o], |img|)
  {
    seq(NumWidths(cfg), o requires 0 <= o < NumWidths(cfg) =>
      InsideMonotone(mask, cfg.width0 + o, cfg.widthMax);
      LevelMap(stat, img, mask, levels[o], cfg.width0 + o))
  }

  /** R[i, j, :] of line 155. */
  function Ratios(cfg: Config, cdf: nat -> seq<real>, f: seq<seq<seq<Float>>>, i: nat, j: nat): (r: seq<Float>)
    requires ValidConfig(cfg) && |f| == NumWidths(cfg)
    requires forall o :: 0 <= o < |f| ==> i < |f[o]| && j < |f[o][i]|
    ensures |r| == NumWidths(cfg)
  {
    seq(NumWidths(cfg), o requires 0 <= o < NumWidths(cfg) => Div(f[o][i][j], Num(Falpha(cfg, cdf, o))))
  }

  /** The ratio a pixel's window of width offset o gives: its statistic over
      that width's critical value. */
  function WidthRatio(cfg: Config, stat: Statistic, cdf: nat -> seq<real>, levels: seq<Level>, img: Image, p: Pixel, o: nat)
    : Float
    requires ValidConfig(cfg) && LevelsFit(cfg, levels)
    requires IsSquare(img, |img|) && WindowInside(p, cfg.widthMax, |img|) && o < NumWidths(cfg)
  {
    Div(WindowStatistic(stat, levels[o], Window(img, p, cfg.width0 + o)), Num(Falpha(cfg, cdf, o)))
  }

  /** The ratios a pixel's own windows give, width by width. */
  function WindowRatios(cfg: Config, stat: Statistic, cdf: nat -> seq<real>, levels: seq<Level>, img: Image, p: Pixel): (r: seq<Float>)
    requires ValidConfig(cfg) && LevelsFit(cfg, levels)
    requires IsSquare(img, |img|) && WindowInside(p, cfg.widthMax, |img|)
    ensures |r| == NumWidths(cfg)
    ensures forall o :: 0 <= o < |r| ==> r[o] == WidthRatio(cfg, stat, cdf, levels, img, p, o)
  {
    seq(NumWidths(cfg), o requires 0 <= o < NumWidths(cfg) => WidthRatio(cfg, stat, cdf, levels, img, p, o))
  }

  /** The resolution map res of lines 155-158, or None where the script
      stops with an error because a masked pixel's window leaves the image.
      The windows are nested, so the largest width decides. */
  function ResolutionMap(cfg: Config, stat: Statistic, cdf: nat -> seq<real>, levels: seq<Level>, img: Image, mask: Mask)
    : (res: Option<seq<seq<nat>>>)
    requires ValidConfig(cfg) && LevelsFit(cfg, levels)
    requires IsSquare(img, |img|) && IsSquare(mask, |img|)
    ensures res.None? <==> exists i, j :: 0 <= i < |img| && 0 <= j < |img| && mask[i][j]
                                         && !WindowInside(Pixel(i, j), cfg.widthMax, |img|)
    ensures res.Some? ==> IsSquare(res.value, |img|)
  {
    if !MaskInside(mask, cfg.widthMax) then None
    else
      var f := Stack(cfg, stat, levels, img, mask);
      var n := |img|;
      Some(seq(n, i requires 0 <= i < n =>
        seq(n, j requires 0 <= j < n => Resolve(Ratios(cfg, cdf, f, i, j), cfg.widthMax))))
  }

  /** Entry (i, j) of the map is the choice made from that pixel's ratios. */
  lemma MapAt(cfg: Config, stat: Statistic, cdf: nat -> seq<real>, levels: seq<Level>, img: Image, mask: Mask, i: nat, j: nat)
    requires ValidConfig(cfg) && LevelsFit(cfg, levels)
    requires IsSquare(img, |img|) && IsSquare(mask, |img|) && i < |img| && j < |img|
    requires ResolutionMap(cfg, stat, cdf, levels, img, mask).Some?
    ensures MaskInside(mask, cfg.widthMax)
    ensures ResolutionMap(cfg, stat, cdf, levels, img, mask).value[i][j]
            == Resolve(Ratios(cfg, cdf, Stack(cfg, stat, levels, img, mask), i, j), cfg.widthMax)
  {
  }

  /** Every entry is the sentinel widthMax or a width offset in
      [0, widthMax - width0]. */
  lemma ResolutionRange(cfg: Config, stat: Statistic, cdf: nat -> seq<real>, levels: seq<Level>, img: Image, mask: Mask, i: nat, j: nat)
    requires ValidConfig(cfg) && LevelsFit(cfg, levels)
    requires IsSquare(img, |img|) && IsSquare(mask, |img|) && i < |img| && j < |img|
    requires ResolutionMap(cfg, stat, cdf, levels, img, mask).Some?
    ensures var res := ResolutionMap(cfg, stat, cdf, levels, img, mask).value;
            res[i][j] == cfg.widthMax || res[i][j] <= cfg.widthMax - cfg.width0
  {
    MapAt(cfg, stat, cdf, levels, img, mask, i, j);
    ResolveRange(Ratios(cfg, cdf, Stack(cfg, stat, levels, img, mask), i, j), cfg.widthMax);
  }

  /** A masked pixel gets the width chosen from the statistics of its own
      windows. */
  lemma MaskedPixel(cfg: Config, stat: Statistic, cdf: nat -> seq<real>, levels: seq<Level>, img: Image, mask: Mask, i: nat, j: nat)
    requires ValidConfig(cfg) && LevelsFit(cfg, levels)
    requires IsSquare(img, |img|) && IsSquare(mask, |img|) && i < |img| && j < |img| && mask[i][j]
    requires ResolutionMap(cfg, stat, cdf, levels, img, mask).Some?
    ensures WindowInside(Pixel(i, j), cfg.widthMax, |img|)
    ensures ResolutionMap(cfg, stat, cdf, levels, img, mask).value[i][j]
            == Resolve(WindowRatios(cfg, stat, cdf, levels, img, Pixel(i, j)), cfg.widthMax)
  {
    MapAt(cfg, stat, cdf, levels, img, mask, i, j);
    MaskedRatios(cfg, stat, cdf, levels, img, mask, i, j);
  }

  lemma MaskedRatios(cfg: Config, stat: Statistic, cdf: nat -> seq<real>, levels: seq<Level>, img: Image, mask: Mask, i: nat, j: nat)
    requires ValidConfig(cfg) && LevelsFit(cfg, levels)
    requires IsSquare(img, |img|) && IsSquare(mask, |img|) && i < |img| && j < |img| && mask[i][j]
    requires MaskInside(mask, cfg.widthMax)
    ensures WindowInside(Pixel(i, j), cfg.widthMax, |img|)
    ensures Ratios(cfg, cdf, Stack(cfg, stat, levels, img, mask), i, j) == WindowRatios(cfg, stat, cdf, levels, img, Pixel(i, j))
  {
    var f := Stack(cfg, stat, levels, img, mask);
    var r, wr := Ratios(cfg, cdf, f, i, j), WindowRatios(cfg, stat, cdf, levels, img, Pixel(i, j));
    forall o | 0 <= o < NumWidths(cfg)
      ensures r[o] == wr[o]
    {
      MaskedRatio(cfg, stat, cdf, levels, img, mask, i, j, o);
    }
  }

  lemma MaskedRatio(cfg: Config, stat: Statistic, cdf: nat -> seq<real>, levels: seq<Level>, img: Image, mask: Mask,
                    i: nat, j: nat, o: nat)
    requires ValidConfig(cfg) && LevelsFit(cfg, levels)
    requires IsSquare(img, |img|) && IsSquare(mask, |img|) && i < |img| && j < |img| && mask[i][j]
    requires MaskInside(mask, cfg.widthMax) && o < NumWidths(cfg)
    ensures WindowInside(Pixel(i, j), cfg.widthMax, |img|)
    ensures Ratios(cfg, cdf, Stack(cfg, stat, levels, img, mask), i, j)[o]
            == WindowRatios(cfg, stat, cdf, levels, img, Pixel(i, j))[o]
  {
    var w := cfg.width0 + o;
    InsideMonotone(mask, w, cfg.widthMax);
    var f := Stack(cfg, stat, levels, img, mask);
    assert f[o] == LevelMap(stat, img, mask, levels[o], w);
    LevelMapAt(stat, img, mask, levels[o], w, i, j);
    assert f[o][i][j] == WindowStatistic(stat, levels[o], Window(img, Pixel(i, j), w));
  }

  /** A pixel outside the mask has statistic 0 at every width; with positive
      critical values every ratio is 0, so it gets the sentinel. */
  lemma UnmaskedPixel(cfg: Config, stat: Statistic, cdf: nat -> seq<real>, levels: seq<Level>, img: Image, mask: Mask, i: nat, j: nat)
    requires ValidConfig(cfg) && LevelsFit(cfg, levels)
    requires IsSquare(img, |img|) && IsSquare(mask, |img|) && i < |img| && j < |img| && !mask[i][j]
    requires ResolutionMap(cfg, stat, cdf, levels, img, mask).Some?
    requires forall o :: 0 <= o < NumWidths(cfg) ==> Falpha(cfg, cdf, o) > 0.0
    ensures ResolutionMap(cfg, stat, cdf, levels, img, mask).value[i][j] == cfg.widthMax
  {
    MapAt(cfg, stat, cdf, levels, img, mask, i, j);
    var r := Ratios(cfg, cdf, Stack(cfg, stat, levels, img, mask), i, j);
    forall o | 0 <= o < NumWidths(cfg)
      ensures AtMostOne(r[o])
    {
      UnmaskedRatio(cfg, stat, cdf, levels, img, mask, i, j, o);
    }
    AmaxAtMostOne(r);
  }

  lemma UnmaskedRatio(cfg: Config, stat: Statistic, cdf: nat -> seq<real>, levels: seq<Level>, img: Image, mask: Mask,
                      i: nat, j: nat, o: nat)
    requires ValidConfig(cfg) && LevelsFit(cfg, levels)
    requires IsSquare(img, |img|) && IsSquare(mask, |img|) && i < |img| && j < |img| && !mask[i][j]
    requires MaskInside(mask, cfg.widthMax) && o < NumWidths(cfg) && Falpha(cfg, cdf, o) > 0.0
    ensures Ratios(cfg, cdf, Stack(cfg, stat, levels, img, mask), i, j)[o] == Num(0.0)
  {
    var w := cfg.width0 + o;
    InsideMonotone(mask, w, cfg.widthMax);
    var f := Stack(cfg, stat, levels, img, mask);
    assert f[o] == LevelMap(stat, img, mask, levels[o], w);
    LevelMapAt(stat, img, mask, levels[o], w, i, j);
  }

  /** Where a masked pixel does not get the sentinel, it gets the offset of
      the first width whose ratio is largest, and that ratio is above 1 or
      NaN. */
  lemma SignificantPixel(cfg: Config, stat: Statistic, cdf: nat -> seq<real>, levels: seq<Level>, img: Image, mask: Mask, i: nat, j: nat)
    requires ValidConfig(cfg) && LevelsFit(cfg, levels)
    requires IsSquare(img, |img|) && IsSquare(mask, |img|) && i < |img| && j < |img| && mask[i][j]
    requires ResolutionMap(cfg, stat, cdf, levels, img, mask).Some?
    requires ResolutionMap(cfg, stat, cdf, levels, img, mask).value[i][j] != cfg.widthMax
    ensures WindowInside(Pixel(i, j), cfg.widthMax, |img|)
    ensures var r := WindowRatios(cfg, stat, cdf, levels, img, Pixel(i, j));
            var k := ResolutionMap(cfg, stat, cdf, levels, img, mask).value[i][j];
            k <= cfg.widthMax - cfg.width0 && IsArgMax(r, k) && !AtMostOne(r[k])
  {
    MaskedPixel(cfg, stat, cdf, levels, img, mask, i, j);
    var r := WindowRatios(cfg, stat, cdf, levels, img, Pixel(i, j));
    ResolveChosen(r, cfg.widthMax);
    ResolveSignificant(r, cfg.widthMax);
  }

  /** As written, a pixel whose smallest window is all zero is reported at
      offset 0, the finest width, whatever the critical values: its first
      ratio is NaN, which np.argmax selects and `<= 1` does not reset. */
  lemma ZeroWindowResolvedAsWritten(cfg: Config, cdf: nat -> seq<real>, levels: seq<Level>, img: Image, p: Pixel)
    requires ValidConfig(cfg) && LevelsFit(cfg, levels)
    requires IsSquare(img, |img|) && WindowInside(p, cfg.widthMax, |img|)
    requires AllZero(Window(img, p, cfg.width0))
    ensures Resolve(WindowRatios(cfg, AsWritten, cdf, levels, img, p), cfg.widthMax) == 0
  {
    var r := WindowRatios(cfg, AsWritten, cdf, levels, img, p);
    assert r[0] == Div(PixelF(levels[0], Window(img, p, cfg.width0)), Num(Falpha(cfg, cdf, 0)));
  }

  /** The same for the map as the script computes it: a masked pixel whose
      smallest window is all zero gets offset 0. */
  lemma ZeroWindowMappedAsWritten(cfg: Config, cdf: nat -> seq<real>, levels: seq<Level>, img: Image, mask: Mask,
                                  i: nat, j: nat, k: nat)
    requires ValidConfig(cfg) && LevelsFit(cfg, levels)
    requires IsSquare(img, |img|) && IsSquare(mask, |img|) && i < |img| && j < |img| && mask[i][j]
    requires WindowInside(Pixel(i, j), cfg.widthMax, |img|)
    requires AllZero(Window(img, Pixel(i, j), cfg.width0))
    requires ResolutionMap(cfg, AsWritten, cdf, levels, img, mask).Some?
    requires k == ResolutionMap(cfg, AsWritten, cdf, levels, img, mask).value[i][j]
    ensures k == 0
  {
    MaskedPixel(cfg, AsWritten, cdf, levels, img, mask, i, j);
    ZeroWindowResolvedAsWritten(cfg, cdf, levels, img, Pixel(i, j));
  }

  /** Away from all-zero windows the guard changes nothing. */
  lemma GuardAgreesAsWritten(cfg: Config, cdf: nat -> seq<real>, levels: seq<Level>, img: Image, p: Pixel)
    requires ValidConfig(cfg) && LevelsFit(cfg, levels)
    requires IsSquare(img, |img|) && WindowInside(p, cfg.widthMax, |img|)
    requires forall w :: cfg.width0 <= w <= cfg.widthMax ==> !AllZero(Window(img, p, w))
    ensures WindowRatios(cfg, Guarded, cdf, levels, img, p) == WindowRatios(cfg, AsWritten, cdf, levels, img, p)
  {
  }

  /** With the guard and positive critical values, the width chosen from a
      pixel's ratios never has an all-zero window. */
  lemma ZeroWindowNeverChosen(cfg: Config, cdf: nat -> seq<real>, levels: seq<Level>, img: Image, p: Pixel, k: nat)
    requires ValidConfig(cfg) && LevelsFit(cfg, levels)
    requires IsSquare(img, |img|) && WindowInside(p, cfg.widthMax, |img|)
    requires forall o :: 0 <= o < NumWidths(cfg) ==> Falpha(cfg, cdf, o) > 0.0
    requires k == Resolve(WindowRatios(cfg, Guarded, cdf, levels, img, p), cfg.widthMax) && k != cfg.widthMax
    ensures k < NumWidths(cfg) && !AllZero(Window(img, p, cfg.width0 + k))
  {
    ResolveChosen(WindowRatios(cfg, Guarded, cdf, levels, img, p), cfg.widthMax);
    if AllZero(Window(img, p, cfg.width0 + k)) {
      ZeroWindowRatio(cfg, cdf, levels, img, p, k);
    }
  }

  /** The same for the map with the guard: the width reported for a masked
      pixel never has an all-zero window. */
  lemma ZeroWindowNeverMapped(cfg: Config, cdf: nat -> seq<real>, levels: seq<Level>, img: Image, mask: Mask,
                              i: nat, j: nat, k: nat)
    requires ValidConfig(cfg) && LevelsFit(cfg, levels)
    requires IsSquare(img, |img|) && IsSquare(mask, |img|) && i < |img| && j < |img| && mask[i][j]
    requires forall o :: 0 <= o < NumWidths(cfg) ==> Falpha(cfg, cdf, o) > 0.0
    requires ResolutionMap(cfg, Guarded, cdf, levels, img, mask).Some?
    requires k == ResolutionMap(cfg, Guarded, cdf, levels, img, mask).value[i][j] && k != cfg.widthMax
    ensures WindowInside(Pixel(i, j), cfg.widthMax, |img|)
    ensures k < NumWidths(cfg) && !AllZero(Window(img, Pixel(i, j), cfg.width0 + k))
  {
    MaskedPixel(cfg, Guarded, cdf, levels, img, mask, i, j);
    ZeroWindowNeverChosen(cfg, cdf, levels, img, Pixel(i, j), k);
  }

  /** The guard gives a width whose window is all zero the ratio 0, so such
      a width is never significant. */
  lemma ZeroWindowRatio(cfg: Config, cdf: nat -> seq<real>, levels: seq<Level>, img: Image, p: Pixel, k: nat)
    requires ValidConfig(cfg) && LevelsFit(cfg, levels)
    requires IsSquare(img, |img|) && WindowInside(p, cfg.widthMax, |img|)
    requires k < NumWidths(cfg) && Falpha(cfg, cdf, k) > 0.0
    requires AllZero(Window(img, p, cfg.width0 + k))
    ensures WindowRatios(cfg, Guarded, cdf, levels, img, p)[k] == Num(0.0)
  {
    var win := Window(img, p, cfg.width0 + k);
    var crit := Falpha(cfg, cdf, k);
    assert WidthRatio(cfg, Guarded, cdf, levels, img, p, k) == Div(GuardedPixelF(levels[k], win), Num(crit));
    GuardedPixelFMeaning(levels[k], win, crit);
  }

  /** Starting at width 1 (dof 9, below the populated part of the table)
      makes the first critical value 0, so the first ratio of every pixel is
      an infinity or NaN, never a number. */
  lemma WidthOneRatio(cfg: Config, stat: Statistic, cdf: nat -> seq<real>, levels: seq<Level>, img: Image, p: Pixel)
    requires ValidConfig(cfg) && LevelsFit(cfg, levels) && cfg.width0 == 1
    requires IsSquare(img, |img|) && WindowInside(p, cfg.widthMax, |img|)
    ensures Falpha(cfg, cdf, 0) == 0.0
    ensures !WindowRatios(cfg, stat, cdf, levels, img, p)[0].Num?
  {
    WidthOneUnpopulated();
    FalphaTable(cfg, cdf, 0);
  }

  /** A table entry is positive for every width of a configuration starting
      at width 2 when the step is positive and each sampled CDF starts at or
      below alpha. */
  lemma FalphaPositive(cfg: Config, cdf: nat -> seq<real>, o: nat)
    requires ValidConfig(cfg) && o < NumWidths(cfg) && cfg.width0 >= 2
    requires |cdf(Dof(cfg.width0 + o))| > 0 && cdf(Dof(cfg.width0 + o))[0] <= cfg.alpha
    ensures Falpha(cfg, cdf, o) > 0.0
  {
    DofInTable(cfg.width0, cfg.width0 + o, cfg.widthMax);
    CriticalValuePositive(MaxDof(cfg), cfg.stepSize, cfg.alpha, cdf, Dof(cfg.width0 + o));
  }

  /** The script's parameters: nine widths, a table of 442 entries, nine
      basis functions per window, and every width inside the populated part
      of the table. */
  lemma DefaultConfig()
    ensures ValidConfig(Default)
    ensures NumWidths(Default) == 9 && MaxDof(Default) == 441
    ensures DirectionBasis.NumComb(DirectionBasis.NumDirections(Default.angleStep)) == 9
    ensures forall w :: Default.width0 <= w <= Default.widthMax ==> MinTableDof <= Dof(w) <= MaxDof(Default)
  {
    DirectionBasis.DefaultDirections();
    forall w | Default.width0 <= w <= Default.widthMax
      ensures MinTableDof <= Dof(w) <= MaxDof(Default)
    {
      DofInTable(Default.width0, w, Default.widthMax);
    }
  }
}
