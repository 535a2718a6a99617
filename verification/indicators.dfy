/**
 * The indicator library: exponential moving average, relative strength index
 * and on-balance volume over a close (and volume) column. Every indicator is
 * computed from trailing data only.
 */
module Indicators {
  import opened Wrappers
  import opened Series

  // ---------------------------------------------------------------- EMA

  /** Smoothing factor of an EMA with the given span. */
  function Alpha(span: nat): (a: real)
    requires span >= 1
    ensures 0.0 < a <= 1.0
  {
    2.0 / (span as real + 1.0)
  }

  /** EMA value at the last bar of `xs`, seeded with the first input (no bias adjustment). */
  function EmaLast(xs: seq<real>, span: nat): real
    requires xs != [] && span >= 1
  {
    if |xs| == 1 then xs[0]
    else Alpha(span) * xs[|xs| - 1] + (1.0 - Alpha(span)) * EmaLast(xs[..|xs| - 1], span)
  }

  /** `ewm(span=span, adjust=False).mean()`: one EMA value per input bar. */
  function Ema(xs: seq<real>, span: nat): (r: seq<real>)
    requires span >= 1
    ensures |r| == |xs|
    ensures xs != [] ==> r[0] == xs[0]
  {
    assert xs != [] ==> xs[..1] == [xs[0]];
    seq(|xs|, t requires 0 <= t < |xs| => EmaLast(xs[..t + 1], span))
  }

  /** After the first bar, y[t] = α·x[t] + (1-α)·y[t-1]. */
  lemma EmaRecurrence(xs: seq<real>, span: nat, t: nat)
    requires span >= 1 && 1 <= t < |xs|
    ensures Ema(xs, span)[t] == Alpha(span) * xs[t] + (1.0 - Alpha(span)) * Ema(xs, span)[t - 1]
  {
    assert xs[..t + 1][..t] == xs[..t];
    assert xs[..t + 1][t] == xs[t];
  }

  /** The EMA at bar t depends only on bars 0..t. */
  lemma EmaCausal(xs: seq<real>, ys: seq<real>, span: nat, t: nat)
    requires span >= 1 && t < |xs| && t < |ys| && xs[..t + 1] == ys[..t + 1]
    ensures Ema(xs, span)[t] == Ema(ys, span)[t]
  {
  }

  /** Span 1 gives α = 1, so the EMA reproduces its input. */
  lemma EmaSpanOne(xs: seq<real>)
    ensures Ema(xs, 1) == xs
  {
    forall t | 0 <= t < |xs| ensures Ema(xs, 1)[t] == xs[t] {
      assert xs[..t + 1][t] == xs[t];
    }
  }

  /** The EMA at the last bar lies within the range of the inputs. */
  lemma {:induction false} EmaLastBounded(xs: seq<real>, span: nat, lo: real, hi: real)
    requires xs != [] && span >= 1
    requires forall i :: 0 <= i < |xs| ==> lo <= xs[i] <= hi
    ensures lo <= EmaLast(xs, span) <= hi
  {
    if |xs| > 1 {
      var init := xs[..|xs| - 1];
      EmaLastBounded(init, span, lo, hi);
      Blend(Alpha(span), xs[|xs| - 1], EmaLast(init, span), lo, hi);
    }
  }

  /** A convex blend of two values in [lo, hi] stays in [lo, hi]. */
  lemma Blend(a: real, x: real, y: real, lo: real, hi: real)
    requires 0.0 < a <= 1.0 && lo <= x <= hi && lo <= y <= hi
    ensures lo <= a * x + (1.0 - a) * y <= hi
  {
    assert a * x + (1.0 - a) * y - lo == a * (x - lo) + (1.0 - a) * (y - lo);
    assert hi - (a * x + (1.0 - a) * y) == a * (hi - x) + (1.0 - a) * (hi - y);
    ProductSign(a, x - lo);
    ProductSign(1.0 - a, y - lo);
    ProductSign(a, hi - x);
    ProductSign(1.0 - a, hi - y);
  }

  lemma ProductSign(x: real, y: real)
    requires x >= 0.0
    ensures y >= 0.0 ==> x * y >= 0.0
    ensures x > 0.0 && y > 0.0 ==> x * y > 0.0
    ensures x > 0.0 && y <= 0.0 ==> x * y <= 0.0
  {
  }

  /** Every EMA value lies within the range of the inputs. */
  lemma EmaBounded(xs: seq<real>, span: nat, lo: real, hi: real)
    requires span >= 1
    requires forall i :: 0 <= i < |xs| ==> lo <= xs[i] <= hi
    ensures forall t :: 0 <= t < |xs| ==> lo <= Ema(xs, span)[t] <= hi
  {
    forall t | 0 <= t < |xs| ensures lo <= Ema(xs, span)[t] <= hi {
      EmaLastBounded(xs[..t + 1], span, lo, hi);
    }
  }

  /** A constant input gives a constant EMA. */
  lemma EmaConstant(xs: seq<real>, span: nat, c: real)
    requires span >= 1
    requires forall i :: 0 <= i < |xs| ==> xs[i] == c
    ensures forall t :: 0 <= t < |xs| ==> Ema(xs, span)[t] == c
  {
    EmaBounded(xs, span, c, c);
  }

  // ---------------------------------------------------------------- RSI

  function Clip(x: real): real
  {
    if x > 0.0 then x else 0.0
  }

  /** `diff().clip(lower=0)`: the rise into each bar; bar 0 has no difference. */
  function Gains(xs: seq<real>): (r: seq<Option<real>>)
    ensures |r| == |xs|
    ensures xs != [] ==> r[0].None?
    ensures forall i :: 1 <= i < |xs| ==> r[i].Some? && r[i].value >= 0.0
  {
    seq(|xs|, i requires 0 <= i < |xs| => if i == 0 then None else Some(Clip(xs[i] - xs[i - 1])))
  }

  /** `(-diff()).clip(lower=0)`: the fall into each bar; bar 0 has no difference. */
  function Losses(xs: seq<real>): (r: seq<Option<real>>)
    ensures |r| == |xs|
    ensures xs != [] ==> r[0].None?
    ensures forall i :: 1 <= i < |xs| ==> r[i].Some? && r[i].value >= 0.0
  {
    seq(|xs|, i requires 0 <= i < |xs| => if i == 0 then None else Some(Clip(-(xs[i] - xs[i - 1]))))
  }

  /** At each bar after the first, gain minus loss is the price change and one of the two is 0. */
  lemma GainLossSplit(xs: seq<real>, i: nat)
    requires 1 <= i < |xs|
    ensures Gains(xs)[i].value - Losses(xs)[i].value == xs[i] - xs[i - 1]
    ensures Gains(xs)[i].value == 0.0 || Losses(xs)[i].value == 0.0
  {
  }

  /** Trailing n-bar mean of the gains, read at bar t: defined from bar n on, never negative. */
  function AverageGain(xs: seq<real>, n: nat, t: nat): (r: Option<real>)
    requires 1 <= n && t < |xs|
    ensures r.Some? <==> n <= t
    ensures r.Some? ==> r.value >= 0.0
  {
    DifferenceWindow(Gains(xs), n, t);
    RollingMean(Gains(xs), n, t)
  }

  /** Trailing n-bar mean of the losses, read at bar t: defined from bar n on, never negative. */
  function AverageLoss(xs: seq<real>, n: nat, t: nat): (r: Option<real>)
    requires 1 <= n && t < |xs|
    ensures r.Some? <==> n <= t
    ensures r.Some? ==> r.value >= 0.0
  {
    DifferenceWindow(Losses(xs), n, t);
    RollingMean(Losses(xs), n, t)
  }

  /**
   * A rolling mean over a column of non-negative differences, whose bar 0 is
   * missing, is defined from bar n on and is non-negative.
   */
  lemma DifferenceWindow(d: seq<Option<real>>, n: nat, t: nat)
    requires 1 <= n && t < |d| && d[0].None?
    requires forall i :: 1 <= i < |d| ==> d[i].Some? && d[i].value >= 0.0
    ensures RollingMean(d, n, t).Some? <==> n <= t
    ensures RollingMean(d, n, t).Some? ==> RollingMean(d, n, t).value >= 0.0
  {
    if n <= t {
      RollingMeanAtLeast(d, n, t, 0.0);
    } else if t + 1 == n {
      assert d[t + 1 - n .. t + 1][0] == d[0];
    }
  }

  /** Stands in for a zero average loss, so that the division below is never by zero. */
  const LossFloor: real := 0.000000001

  function FlooredLoss(loss: real): real
  {
    if loss == 0.0 then LossFloor else loss
  }

  /**
   * 100 - 100/(1 + RS) with RS = gain / floored loss: it lies in [0, 100), is 0
   * when there is no gain, and exceeds 50 exactly when the gain exceeds the
   * floored loss.
   */
  function RsiFormula(gain: real, loss: real): (r: real)
    requires gain >= 0.0 && loss >= 0.0
    ensures 0.0 <= r < 100.0
    ensures gain == 0.0 ==> r == 0.0
    ensures r > 50.0 <==> gain > FlooredLoss(loss)
  {
    var l := FlooredLoss(loss);
    assert l > 0.0;
    var rs := gain / l;
    QuotientFacts(gain, l);
    var d := 1.0 + rs;
    var q := 100.0 / d;
    QuotientFacts(100.0, d);
    QuotientFacts(d, 2.0);
    assert q < 50.0 <==> d > 2.0 by {
      assert q * d == 100.0;
      assert q * 2.0 < 100.0 <==> q < 50.0;
    }
    100.0 - q
  }

  /** Sign and comparison facts about a quotient with a positive divisor. */
  lemma QuotientFacts(a: real, b: real)
    requires b > 0.0
    ensures a / b * b == a
    ensures a >= 0.0 ==> a / b >= 0.0
    ensures a > 0.0 ==> a / b > 0.0
    ensures a / b > 1.0 <==> a > b
    ensures b >= 1.0 && a >= 0.0 ==> a / b <= a
  {
    var q := a / b;
    assert q * b == a;
    ProductSign(b, q);
    ProductSign(b, -q);
    assert q > 1.0 <==> a > b by {
      assert b * (q - 1.0) == a - b;
      ProductSign(b, q - 1.0);
      ProductSign(b, 1.0 - q);
    }
    if b >= 1.0 && a >= 0.0 {
      assert (b - 1.0) * q == a - q;
      ProductSign(b - 1.0, q);
    }
  }

  /** RSI read at bar t: undefined before bar n (bar 0 has no difference). */
  function RsiAt(xs: seq<real>, n: nat, t: nat): (r: Option<real>)
    requires 1 <= n && t < |xs|
    ensures r.Some? <==> n <= t
  {
    if t < n then None
    else Some(RsiFormula(AverageGain(xs, n, t).value, AverageLoss(xs, n, t).value))
  }

  /** `rsi(series, n)`: one RSI value per bar, defined from bar n on and always in [0, 100). */
  function Rsi(xs: seq<real>, n: nat): (r: seq<Option<real>>)
    requires n >= 1
    ensures |r| == |xs|
    ensures forall t :: 0 <= t < |xs| ==> (r[t].Some? <==> n <= t)
    ensures forall t :: 0 <= t < |xs| && r[t].Some? ==> 0.0 <= r[t].value < 100.0
  {
    seq(|xs|, t requires 0 <= t < |xs| => RsiAt(xs, n, t))
  }

  /** A price series with no change gives RSI 0 wherever RSI is defined. */
  lemma RsiFlat(xs: seq<real>, n: nat, t: nat)
    requires 1 <= n <= t < |xs|
    requires forall i :: 0 <= i < |xs| ==> xs[i] == xs[0]
    ensures Rsi(xs, n)[t] == Some(0.0)
  {
    var g := Gains(xs);
    assert forall i :: t + 1 - n <= i <= t ==> g[i] == Some(0.0);
    RollingMeanBounds(g, n, t, 0.0, 0.0);
  }

  // ---------------------------------------------------------------- OBV

  function Sign(x: real): real
  {
    if x > 0.0 then 1.0 else if x < 0.0 then -1.0 else 0.0
  }

  /**
   * `sign(close.diff().fillna(0)) * volume`: bar 0 counts as no change; a rise
   * adds the bar's volume, a fall subtracts it, an unchanged close adds 0.
   */
  function SignedVolume(close: seq<real>, volume: seq<real>): (r: seq<real>)
    requires |close| == |volume|
    ensures |r| == |close|
    ensures close != [] ==> r[0] == 0.0
    ensures forall i {:trigger r[i]} :: 1 <= i < |close| ==>
      && (close[i] > close[i - 1] ==> r[i] == volume[i])
      && (close[i] < close[i - 1] ==> r[i] == -volume[i])
      && (close[i] == close[i - 1] ==> r[i] == 0.0)
  {
    seq(|close|, i requires 0 <= i < |close| =>
      if i == 0 then 0.0 else SignedStep(close[i - 1], close[i], volume[i]))
  }

  /** `sign(cur - prev) * v`: v on a rise, -v on a fall, 0 when unchanged. */
  function SignedStep(prev: real, cur: real, v: real): (r: real)
    ensures cur > prev ==> r == v
    ensures cur < prev ==> r == -v
    ensures cur == prev ==> r == 0.0
  {
    Sign(cur - prev) * v
  }

  /** On-balance volume: starts at 0 and moves by the signed volume of each later bar. */
  function Obv(close: seq<real>, volume: seq<real>): (r: seq<real>)
    requires |close| == |volume|
    ensures |r| == |close|
    ensures close != [] ==> r[0] == 0.0
    ensures forall i :: 1 <= i < |close| ==> r[i] == r[i - 1] + SignedVolume(close, volume)[i]
  {
    CumSum(SignedVolume(close, volume))
  }

  /** A price series with no change gives OBV identically 0. */
  lemma {:induction false} ObvFlat(close: seq<real>, volume: seq<real>, i: nat)
    requires |close| == |volume| && i < |close|
    requires forall j :: 0 <= j < |close| ==> close[j] == close[0]
    ensures Obv(close, volume)[i] == 0.0
  {
    if i > 0 {
      ObvFlat(close, volume, i - 1);
    }
  }
}
