/**
 * The signal rules. Each reads an enriched table and either fires, stays
 * silent, or raises (an index or column lookup that fails in the source);
 * the vote treats a raise like silence.
 */
module Rules {
  import opened Wrappers
  import opened Series
  import opened Indicators
  import opened Market
  import opened Frames
  import opened Config

  datatype Verdict = Fires | Silent | Raises

  /** `x or 1` on a number: a zero average is replaced by 1. */
  function OrOne(x: real): real
  {
    if x == 0.0 then 1.0 else x
  }

  // ---------------------------------------------------------------- EMA cross

  /** EMA9 was below EMA21 on the second-to-last bar and is above it on the last. */
  predicate FreshCross(close: seq<real>)
    requires |close| >= 2
  {
    var n := |close|;
    var fast, slow := Ema(close, FastSpan), Ema(close, SlowSpan);
    fast[n - 2] < slow[n - 2] && fast[n - 1] > slow[n - 1]
  }

  /** The last volume beats 1.5 times its 20-bar mean (a zero mean counts as 1). */
  predicate VolumeConfirmed(v: seq<real>)
    requires |v| >= 1
  {
    var avg := RollingMean(Known(v), VolumeWindow, |v| - 1);
    avg.Some? && v[|v| - 1] > VolMultConfirm * OrOne(avg.value)
  }

  /**
   * In raw volume and a price: the last volume times the price beats 1.5
   * times the 20-bar mean volume times the price (or 1.5 when that is 0).
   */
  predicate ConfirmedAtPrice(volume: seq<real>, price: real)
    requires |volume| >= VolumeWindow
  {
    var n := |volume|;
    volume[n - 1] * price > VolMultConfirm * OrOne(Mean(volume[n - VolumeWindow..]) * price)
  }

  /**
   * `rule_ema_cross`: a fresh EMA9/EMA21 crossover confirmed by the last USD
   * volume, missing USD volume counting as 0.
   */
  function RuleEmaCross(f: Frame): (v: Verdict)
    requires f.WellFormed()
    ensures v == Raises <==> f.volumeUsd.None? || |f.close| < 2
    ensures v == Fires ==> |f.close| >= VolumeWindow
  {
    if f.volumeUsd.None? || |f.close| < 2 then Raises
    else if FreshCross(f.close) && VolumeConfirmed(FillMissing(f.volumeUsd.value, 0.0)) then Fires
    else Silent
  }

  /** Firing needs 20 bars and a crossover that formed on the last bar, not before. */
  lemma EmaCrossNeedsFreshCross(f: Frame)
    requires f.WellFormed() && RuleEmaCross(f) == Fires
    ensures |f.close| >= VolumeWindow
    ensures Ema(f.close, FastSpan)[|f.close| - 2] < Ema(f.close, SlowSpan)[|f.close| - 2]
    ensures Ema(f.close, FastSpan)[|f.close| - 1] > Ema(f.close, SlowSpan)[|f.close| - 1]
  {
  }

  /** A flat price has equal fast and slow EMAs, so it never crosses. */
  lemma EmaCrossSilentOnFlatPrice(f: Frame)
    requires f.WellFormed()
    requires forall i :: 0 <= i < |f.close| ==> f.close[i] == f.close[0]
    ensures RuleEmaCross(f) != Fires
  {
    if |f.close| > 0 {
      EmaConstant(f.close, FastSpan, f.close[0]);
      EmaConstant(f.close, SlowSpan, f.close[0]);
    }
  }

  /**
   * With a price, the volume confirmation reads: last volume times price beats
   * 1.5 times the 20-bar mean volume times price (or 1.5 when that is 0).
   */
  lemma EmaCrossVolumeConfirmation(f: Frame, p: Pair, price: real)
    requires f.WellFormed() && |f.close| >= VolumeWindow && p.priceUsd == Some(price)
    ensures RuleEmaCross(Enriched(f, p)) == Fires <==> FreshCross(f.close) && ConfirmedAtPrice(f.volume, price)
  {
    var v := FilledPricedVolume(f, p, price);
    VolumeConfirmedScaled(f.volume, v, price);
  }

  /** With a price, the USD volume the rule reads is volume times price on every bar. */
  lemma FilledPricedVolume(f: Frame, p: Pair, price: real) returns (v: seq<real>)
    requires f.WellFormed() && p.priceUsd == Some(price)
    ensures v == FillMissing(Enriched(f, p).volumeUsd.value, 0.0)
    ensures |v| == |f.volume| && forall i :: 0 <= i < |v| ==> v[i] == f.volume[i] * price
  {
    var u := Enriched(f, p).volumeUsd.value;
    v := FillMissing(u, 0.0);
    PricedVolume(f, p, price);
    forall i | 0 <= i < |v| ensures v[i] == f.volume[i] * price {
      assert u[i] == Some(f.volume[i] * price);
    }
  }

  lemma VolumeConfirmedScaled(volume: seq<real>, v: seq<real>, price: real)
    requires |v| == |volume| >= VolumeWindow
    requires forall i :: 0 <= i < |v| ==> v[i] == volume[i] * price
    ensures VolumeConfirmed(v) <==> ConfirmedAtPrice(volume, price)
  {
    var n := |v|;
    RollingMeanScaled(volume, v, price, VolumeWindow, n - 1);
    assert volume[n - VolumeWindow .. n] == volume[n - VolumeWindow..];
    assert v[n - 1] == volume[n - 1] * price;
  }

  /** Without a price every USD volume is 0, so the volume confirmation fails. */
  lemma EmaCrossSilentWithoutPrice(f: Frame, p: Pair)
    requires f.WellFormed() && p.priceUsd.None?
    ensures RuleEmaCross(Enriched(f, p)) != Fires
  {
    var n := |f.close|;
    var g := Enriched(f, p);
    if n >= VolumeWindow {
      var v := FillMissing(g.volumeUsd.value, 0.0);
      var kv := Known(v);
      assert forall i :: 0 <= i < n ==> kv[i] == Some(0.0);
      RollingMeanBounds(kv, VolumeWindow, n - 1, 0.0, 0.0);
    }
  }

  // ---------------------------------------------------------------- RSI reclaim

  /** `rule_rsi_reclaim`: the last RSI(14) is strictly above 50. */
  function RuleRsiReclaim(f: Frame): (v: Verdict)
    requires f.WellFormed()
    ensures v == Raises <==> |f.close| == 0
    ensures v == Fires ==> |f.close| > RsiWindow
  {
    var n := |f.close|;
    if n == 0 then Raises
    else
      var r := Rsi(f.close, RsiWindow)[n - 1];
      if r.Some? && r.value > RsiLevel then Fires else Silent
  }

  /** The rule fires exactly when, over the last 14 bars, the mean gain beats the (floored) mean loss. */
  lemma RsiReclaimIff(f: Frame)
    requires f.WellFormed() && |f.close| >= 1
    ensures var n := |f.close|;
      RuleRsiReclaim(f) == Fires <==>
        RsiWindow < n
        && AverageGain(f.close, RsiWindow, n - 1).value > FlooredLoss(AverageLoss(f.close, RsiWindow, n - 1).value)
  {
    var n := |f.close|;
    if n > RsiWindow {
      assert Rsi(f.close, RsiWindow)[n - 1] == RsiAt(f.close, RsiWindow, n - 1);
    }
  }

  /** A flat price has RSI 0 and never reclaims the midline. */
  lemma RsiReclaimSilentOnFlatPrice(f: Frame)
    requires f.WellFormed()
    requires forall i :: 0 <= i < |f.close| ==> f.close[i] == f.close[0]
    ensures RuleRsiReclaim(f) != Fires
  {
    var n := |f.close|;
    if n > RsiWindow {
      RsiFlat(f.close, RsiWindow, n - 1);
    }
  }

  // ---------------------------------------------------------------- OBV leads

  /** The value at bar t beats the maximum of the w bars before it (undefined maximum: no). */
  predicate NewHigh(s: seq<real>, w: nat, t: nat)
    requires 1 <= w && 1 <= t < |s|
  {
    var m := RollingMax(s, w, t - 1);
    m.Some? && s[t] > m.value
  }

  /** A new high means w earlier bars exist and the value beats every one of them. */
  lemma NewHighIff(s: seq<real>, w: nat, t: nat)
    requires 1 <= w && 1 <= t < |s|
    ensures NewHigh(s, w, t) <==> w <= t && forall j :: t - w <= j < t ==> s[t] > s[j]
  {
    if w <= t {
      var m := RollingMax(s, w, t - 1);
      var k :| t - w <= k <= t - 1 && s[k] == m.value;
    }
  }

  /** `rule_obv_leads`: OBV makes a 50-bar high while the close does not. */
  function RuleObvLeads(f: Frame): (v: Verdict)
    requires f.WellFormed()
    ensures v == Raises <==> |f.close| < 2
    ensures v == Fires ==> |f.close| > HighWindow
  {
    var n := |f.close|;
    if n < 2 then Raises
    else if NewHigh(Obv(f.close, f.volume), HighWindow, n - 1) && !NewHigh(f.close, HighWindow, n - 1) then Fires
    else Silent
  }

  /**
   * The rule fires exactly when there are 51 bars, the last OBV is above each
   * of the 50 OBV values before it, and some close among those 50 is at
   * least the last close. The current bar is in neither window.
   */
  lemma ObvLeadsIff(f: Frame)
    requires f.WellFormed() && |f.close| >= 2
    ensures var n := |f.close|; var o := Obv(f.close, f.volume);
      RuleObvLeads(f) == Fires <==>
        && n > HighWindow
        && (forall j :: n - 1 - HighWindow <= j < n - 1 ==> o[n - 1] > o[j])
        && (exists j :: n - 1 - HighWindow <= j < n - 1 && f.close[j] >= f.close[n - 1])
  {
    var n := |f.close|;
    NewHighIff(Obv(f.close, f.volume), HighWindow, n - 1);
    NewHighIff(f.close, HighWindow, n - 1);
  }

  /** A flat price gives a flat OBV of 0, which never makes a new high. */
  lemma ObvLeadsSilentOnFlatPrice(f: Frame)
    requires f.WellFormed()
    requires forall i :: 0 <= i < |f.close| ==> f.close[i] == f.close[0]
    ensures RuleObvLeads(f) != Fires
  {
    var n := |f.close|;
    if n > HighWindow {
      ObvLeadsIff(f);
      ObvFlat(f.close, f.volume, n - 1);
      ObvFlat(f.close, f.volume, n - 2);
    }
  }

  // ---------------------------------------------------------------- market-cap ROC

  /**
   * `roc > 5` for roc = (current/base - 1)·100. For a non-zero base it is
   * written without the division: (current - base)·100 against 5·base, the
   * comparison turning round for a negative base (`RocExceedsPercentage`
   * proves the two forms agree). A zero base gives +inf for a positive
   * current (fires), -inf or NaN otherwise (silent).
   */
  function RocExceeds(current: real, base: real): bool
  {
    if base == 0.0 then current > 0.0
    else if base > 0.0 then (current - base) * 100.0 > RocThreshold * base
    else (current - base) * 100.0 < RocThreshold * base
  }

  /** For a non-zero base the rule's comparison is the source's percentage change compared with 5. */
  lemma RocExceedsPercentage(current: real, base: real)
    requires base != 0.0
    ensures RocExceeds(current, base) <==> (current / base - 1.0) * 100.0 > RocThreshold
  {
    var q := current / base;
    assert q * base == current;
    var roc := (q - 1.0) * 100.0;
    assert (roc - RocThreshold) * base == (current - base) * 100.0 - RocThreshold * base;
    if base > 0.0 {
      ProductSign(base, roc - RocThreshold);
    } else {
      assert (roc - RocThreshold) * -base == RocThreshold * base - (current - base) * 100.0;
      ProductSign(-base, roc - RocThreshold);
    }
  }

  /**
   * `rule_mcap_roc`: the 5-bar percentage change of the forward-filled
   * market cap, read at the last bar, exceeds 5. Inert without market-cap data.
   */
  function RuleMcapRoc(f: Frame): (v: Verdict)
    requires f.WellFormed()
    ensures v != Raises
    ensures v == Fires ==> f.mcap.Some? && !AllMissing(f.mcap.value) && |f.close| > RocWindow
  {
    if f.mcap.None? || AllMissing(f.mcap.value) then Silent
    else if |f.close| < RocWindow + 1 then Silent
    else FilledRoc(f.mcap.value)
  }

  /** The 5-bar change of the forward-filled column, read at its last bar. */
  function FilledRoc(m: seq<Option<real>>): Verdict
    requires |m| > RocWindow
  {
    var filled := ForwardFill(m);
    RocVerdict(filled[|m| - 1], filled[|m| - 1 - RocWindow])
  }

  /** Forward fill changes nothing on a complete column, so the change is read on the column itself. */
  lemma FilledRocComplete(m: seq<Option<real>>, n: nat)
    requires n == |m| > RocWindow && AllDefined(m)
    ensures FilledRoc(m) == RocVerdict(m[n - 1], m[n - 1 - RocWindow])
  {
    ForwardFillKeeps(m, n - 1);
    ForwardFillKeeps(m, n - 1 - RocWindow);
  }

  /** Fires when both caps are known and the change from `base` to `current` exceeds 5%. */
  function RocVerdict(current: Option<real>, base: Option<real>): Verdict
  {
    if current.Some? && base.Some? && RocExceeds(current.value, base.value) then Fires else Silent
  }

  /** With no market-cap value at all the rule never fires. */
  lemma McapRocSilentWhenMissing(f: Frame)
    requires f.WellFormed() && (f.mcap.None? || AllMissing(f.mcap.value))
    ensures RuleMcapRoc(f) == Silent
  {
  }

  /** On a complete column of at least six bars the rule compares the last cap with the one five bars back. */
  lemma McapRocOnComplete(f: Frame)
    requires f.WellFormed() && f.mcap.Some? && AllDefined(f.mcap.value) && |f.close| > RocWindow
    ensures var n := |f.close|; var m := f.mcap.value;
      RuleMcapRoc(f) == RocVerdict(m[n - 1], m[n - 1 - RocWindow])
  {
    var n := |f.close|;
    var m := f.mcap.value;
    assert !AllMissing(m) by {
      assert m[0].Some?;
    }
    assert RuleMcapRoc(f) == FilledRoc(m);
    FilledRocComplete(m, n);
  }

  /** For a complete column and a positive base, the rule fires iff the cap rose by more than 5%. */
  lemma McapRocRise(f: Frame)
    requires f.WellFormed() && f.mcap.Some? && AllDefined(f.mcap.value)
    requires |f.close| > RocWindow && f.mcap.value[|f.close| - 1 - RocWindow].value > 0.0
    ensures var n := |f.close|; var m := f.mcap.value;
      RuleMcapRoc(f) == Fires <==> m[n - 1].value > 1.05 * m[n - 1 - RocWindow].value
  {
    McapRocOnComplete(f);
    RiseOnColumn(f.mcap.value, |f.close|);
  }

  /** On a complete column with a positive cap five bars back, the verdict fires iff the cap rose above 1.05 times it. */
  lemma RiseOnColumn(m: seq<Option<real>>, n: nat)
    requires n == |m| > RocWindow && AllDefined(m) && m[n - 1 - RocWindow].value > 0.0
    ensures RocVerdict(m[n - 1], m[n - 1 - RocWindow]) == Fires <==> m[n - 1].value > 1.05 * m[n - 1 - RocWindow].value
  {
    RocRise(m[n - 1].value, m[n - 1 - RocWindow].value);
  }

  /** For a positive base, the change exceeds 5% iff current > 1.05 · base. */
  lemma RocRise(current: real, base: real)
    requires base > 0.0
    ensures RocExceeds(current, base) <==> current > 1.05 * base
  {
  }

  /** An unchanged non-zero value is a 0% change. */
  lemma RocUnchanged(x: real)
    requires x != 0.0
    ensures !RocExceeds(x, x)
  {
  }

  /**
   * After enrichment the market-cap column is either one non-zero constant on
   * every bar, whose 5-bar change is 0, or NaN on every bar, where the rule
   * returns early; either way the rule never fires.
   */
  lemma McapRocInertAfterEnrichment(f: Frame, p: Pair)
    requires f.WellFormed()
    ensures RuleMcapRoc(Enriched(f, p)) == Silent
  {
    var g := Enriched(f, p);
    var n := |f.close|;
    var m := g.mcap.value;
    if MarketCap(p).Some? && n > RocWindow {
      assert AllDefined(m);
      McapRocOnComplete(g);
      RocUnchanged(MarketCap(p).value);
    } else if MarketCap(p).None? {
      assert AllMissing(m);
    }
  }
}
