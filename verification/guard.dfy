/**
 * The admission test a pair's table must pass before any rule is consulted:
 * enough average USD volume over the last 20 bars and enough liquidity on
 * the last bar.
 */
module Admission {
  import opened Wrappers
  import opened Series
  import opened Market
  import opened Frames
  import opened Config

  /** The column the volume test averages: USD volume when the table has it, raw volume otherwise. */
  function VolumeColumn(f: Frame): (c: seq<Option<real>>)
    requires f.WellFormed()
    ensures |c| == |f.close|
    ensures f.volumeUsd.Some? ==> c == f.volumeUsd.value
    ensures f.volumeUsd.None? ==> c == Known(f.volume)
  {
    if f.volumeUsd.Some? then f.volumeUsd.value else Known(f.volume)
  }

  /**
   * The 20-bar average of that column, read on the last bar, exists and
   * reaches the minimum. A missing average (too few bars, or a missing cell in
   * the window) compares false.
   */
  predicate VolumeOk(f: Frame)
    requires f.WellFormed() && |f.close| > 0
    ensures VolumeOk(f) ==> |f.close| >= VolumeWindow
    ensures VolumeOk(f) && f.volumeUsd.Some? ==> AllDefined(f.volumeUsd.value[|f.close| - VolumeWindow..])
  {
    var avg := RollingMean(VolumeColumn(f), VolumeWindow, |f.close| - 1);
    avg.Some? && avg.value >= MinAbsVolumeUsd
  }

  /** The table has a liquidity column and its last entry reaches the minimum. */
  predicate LiquidityOk(f: Frame)
    requires f.WellFormed() && |f.close| > 0
    ensures LiquidityOk(f) ==> f.liquidityUsd.Some? && f.liquidityUsd.value[|f.close| - 1] >= MinLiqUsd
  {
    f.liquidityUsd.Some? && f.liquidityUsd.value[|f.close| - 1] >= MinLiqUsd
  }

  /** `guards`: both tests pass. The table is non-empty (the last bar is read). */
  predicate Guards(f: Frame)
    requires f.WellFormed() && |f.close| > 0
    ensures Guards(f) ==> |f.close| >= VolumeWindow && f.liquidityUsd.Some?
    ensures Guards(f) ==> f.liquidityUsd.value[|f.close| - 1] >= MinLiqUsd
  {
    VolumeOk(f) && LiquidityOk(f)
  }

  /** After enrichment the liquidity test reads the snapshot's liquidity figure. */
  lemma GuardsOnSnapshot(f: Frame, p: Pair)
    requires f.WellFormed() && |f.close| > 0
    ensures Guards(Enriched(f, p)) <==> VolumeOk(Enriched(f, p)) && LiquidityUsd(p.liquidity) >= MinLiqUsd
  {
    var g := Enriched(f, p);
    assert g.liquidityUsd.value[|f.close| - 1] == LiquidityUsd(p.liquidity);
  }

  /**
   * With a price, the volume test after enrichment passes exactly when there
   * are 20 bars and the mean raw volume of the last 20, times the price,
   * reaches the minimum.
   */
  lemma GuardVolumeWithPrice(f: Frame, p: Pair, price: real)
    requires f.WellFormed() && |f.close| > 0
    requires p.priceUsd == Some(price)
    ensures VolumeOk(Enriched(f, p)) <==>
      |f.close| >= VolumeWindow && Mean(f.volume[|f.close| - VolumeWindow..]) * price >= MinAbsVolumeUsd
  {
    var n := |f.close|;
    var v := PricedVolumeColumn(f, p, price);
    if n >= VolumeWindow {
      RollingMeanScaled(f.volume, v, price, VolumeWindow, n - 1);
      assert f.volume[n - VolumeWindow .. n] == f.volume[n - VolumeWindow..];
    }
  }

  /** Without a price every USD volume cell is missing, so the pair is never admitted. */
  lemma GuardRejectsMissingPrice(f: Frame, p: Pair)
    requires f.WellFormed() && |f.close| > 0
    requires p.priceUsd.None?
    ensures !Guards(Enriched(f, p))
  {
    var n := |f.close|;
    var u := Enriched(f, p).volumeUsd.value;
    assert u[n - 1].None?;
    assert !AllDefined(u[n - 1 ..]);
    if n >= VolumeWindow {
      assert u[n - VolumeWindow .. n][VolumeWindow - 1] == u[n - 1];
    }
  }

  /** An admitted enriched table belongs to a pair with a price and enough snapshot liquidity. */
  lemma AdmittedPair(f: Frame, p: Pair)
    requires f.WellFormed() && |f.close| > 0
    requires Guards(Enriched(f, p))
    ensures p.priceUsd.Some? && LiquidityUsd(p.liquidity) >= MinLiqUsd
  {
    GuardsOnSnapshot(f, p);
    if p.priceUsd.None? {
      GuardRejectsMissingPrice(f, p);
    }
  }

  /** Fewer than 20 bars: the average is missing and the pair is never admitted. */
  lemma GuardRejectsShortHistory(f: Frame)
    requires f.WellFormed() && 0 < |f.close| < VolumeWindow
    ensures !Guards(f)
  {
  }
}
