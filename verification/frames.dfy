/**
 * The per-pair table the rules read: close and volume columns from the
 * candles plus the snapshot columns that enrichment adds. `Frame` is its
 * value; `DataFrame` is the mutable table that enrichment updates in place.
 */
module Frames {
  import opened Wrappers
  import opened Market
  import opened Series

  /** Column view of a table. An absent column is None; a missing cell is a None entry. */
  datatype Frame = Frame(
    close: seq<real>,
    volume: seq<real>,
    liquidityUsd: Option<seq<real>>,
    volumeUsd: Option<seq<Option<real>>>,
    mcap: Option<seq<Option<real>>>)
  {
    /** Every present column has one entry per bar. */
    predicate WellFormed()
    {
      && |volume| == |close|
      && (liquidityUsd.Some? ==> |liquidityUsd.value| == |close|)
      && (volumeUsd.Some? ==> |volumeUsd.value| == |close|)
      && (mcap.Some? ==> |mcap.value| == |close|)
    }
  }

  /** The table built from the candles: close and volume only. */
  function FromCandles(candles: seq<Candle>): (f: Frame)
    ensures f.WellFormed() && |f.close| == |candles|
    ensures forall i :: 0 <= i < |candles| ==> f.close[i] == candles[i].close && f.volume[i] == candles[i].volume
    ensures f.liquidityUsd.None? && f.volumeUsd.None? && f.mcap.None?
  {
    Frame(seq(|candles|, i requires 0 <= i < |candles| => candles[i].close),
          seq(|candles|, i requires 0 <= i < |candles| => candles[i].volume),
          None, None, None)
  }

  /** A scalar assigned to a column: the same value on every bar. */
  function Broadcast<T>(x: T, n: nat): (r: seq<T>)
    ensures |r| == n
  {
    seq(n, _ => x)
  }

  /** `volume * price` per bar; every cell is missing when the price is. */
  function VolumeUsd(volume: seq<real>, price: Option<real>): (r: seq<Option<real>>)
    ensures |r| == |volume|
    ensures forall i :: 0 <= i < |volume| ==> (r[i].Some? <==> price.Some?)
    ensures price.Some? ==> forall i :: 0 <= i < |volume| ==> r[i].value == volume[i] * price.value
  {
    seq(|volume|, i requires 0 <= i < |volume| =>
      if price.Some? then Some(volume[i] * price.value) else None)
  }

  /**
   * The table after `enrich_with_snapshot`: the candle columns are kept, the
   * liquidity and market-cap columns are constant, and a USD volume cell is
   * present exactly when the pair has a price.
   */
  function Enriched(f: Frame, p: Pair): (g: Frame)
    requires f.WellFormed()
    ensures g.WellFormed()
    ensures g.close == f.close && g.volume == f.volume
    ensures g.liquidityUsd.Some? && g.volumeUsd.Some? && g.mcap.Some?
    ensures forall i :: 0 <= i < |f.close| ==>
      g.liquidityUsd.value[i] == LiquidityUsd(p.liquidity) && g.mcap.value[i] == MarketCap(p)
    ensures forall i :: 0 <= i < |f.close| ==> (g.volumeUsd.value[i].Some? <==> p.priceUsd.Some?)
  {
    f.(liquidityUsd := Some(Broadcast(LiquidityUsd(p.liquidity), |f.close|)),
       volumeUsd := Some(VolumeUsd(f.volume, p.priceUsd)),
       mcap := Some(Broadcast(MarketCap(p), |f.close|)))
  }

  /** With a price, every USD volume cell of the enriched table is present and is volume times price. */
  lemma PricedVolume(f: Frame, p: Pair, price: real)
    requires f.WellFormed() && p.priceUsd == Some(price)
    ensures forall i :: 0 <= i < |f.close| ==> Enriched(f, p).volumeUsd.value[i] == Some(f.volume[i] * price)
  {
    var u := Enriched(f, p).volumeUsd.value;
    assert u == VolumeUsd(f.volume, p.priceUsd);
    forall i | 0 <= i < |f.close| ensures u[i] == Some(f.volume[i] * price) {
      assert u[i].Some? && u[i].value == f.volume[i] * price;
    }
  }

  /** With a price, the USD volume column is the complete column of volume times price. */
  lemma PricedVolumeColumn(f: Frame, p: Pair, price: real) returns (v: seq<real>)
    requires f.WellFormed() && p.priceUsd == Some(price)
    ensures |v| == |f.volume| && forall i :: 0 <= i < |v| ==> v[i] == f.volume[i] * price
    ensures Enriched(f, p).volumeUsd.value == Known(v)
  {
    v := seq(|f.volume|, i requires 0 <= i < |f.volume| => f.volume[i] * price);
    PricedVolume(f, p, price);
  }

  /** The mutable table that `enrich_with_snapshot` adds columns to. */
  class DataFrame {
    var close: seq<real>
    var volume: seq<real>
    var liquidityUsd: Option<seq<real>>
    var volumeUsd: Option<seq<Option<real>>>
    var mcap: Option<seq<Option<real>>>

    function View(): Frame
      reads this
    {
      Frame(close, volume, liquidityUsd, volumeUsd, mcap)
    }

    /** The table of a candle list, before enrichment. */
    constructor (candles: seq<Candle>)
      ensures View() == FromCandles(candles)
    {
      close := seq(|candles|, i requires 0 <= i < |candles| => candles[i].close);
      volume := seq(|candles|, i requires 0 <= i < |candles| => candles[i].volume);
      liquidityUsd, volumeUsd, mcap := None, None, None;
    }

    /** `enrich_with_snapshot`: adds the liquidity, USD volume and market-cap columns in place. */
    method EnrichWithSnapshot(pair: Pair)
      requires View().WellFormed()
      modifies this
      ensures View() == Enriched(old(View()), pair)
    {
      liquidityUsd := Some(Broadcast(LiquidityUsd(pair.liquidity), |close|));
      volumeUsd := Some(VolumeUsd(volume, pair.priceUsd));
      mcap := Some(Broadcast(MarketCap(pair), |close|));
    }
  }
}
