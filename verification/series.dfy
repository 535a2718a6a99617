/**
 * Column arithmetic shared by the indicators: sums, maxima, pandas-style
 * trailing rolling windows (a window is defined only when all its entries
 * are), forward fill and cumulative sums. Columns whose entries may be
 * missing are `seq<Option<real>>`.
 */
module Series {
  import opened Wrappers

  function Sum(s: seq<real>): real
  {
    if s == [] then 0.0 else Sum(s[..|s| - 1]) + s[|s| - 1]
  }

  /** A sum of |s| terms each in [lo, hi] lies in [|s|·lo, |s|·hi]. */
  lemma {:induction false} SumBounds(s: seq<real>, lo: real, hi: real)
    requires forall i :: 0 <= i < |s| ==> lo <= s[i] <= hi
    ensures |s| as real * lo <= Sum(s) <= |s| as real * hi
  {
    if s != [] {
      var init := s[..|s| - 1];
      SumBounds(init, lo, hi);
      assert |s| as real * lo == |init| as real * lo + lo;
      assert |s| as real * hi == |init| as real * hi + hi;
    }
  }

  /** Scaling every term scales the sum. */
  lemma {:induction false} SumScale(s: seq<real>, t: seq<real>, k: real)
    requires |t| == |s|
    requires forall i :: 0 <= i < |s| ==> t[i] == s[i] * k
    ensures Sum(t) == Sum(s) * k
  {
    if s != [] {
      SumScale(s[..|s| - 1], t[..|t| - 1], k);
    }
  }

  function Mean(s: seq<real>): real
    requires s != []
  {
    Sum(s) / |s| as real
  }

  /** The largest element of a non-empty sequence. */
  function Max(s: seq<real>): (m: real)
    requires s != []
    ensures m in s
    ensures forall i :: 0 <= i < |s| ==> s[i] <= m
  {
    if |s| == 1 then s[0]
    else
      var rest := Max(s[..|s| - 1]);
      assert rest in s[..|s| - 1];
      if s[|s| - 1] > rest then s[|s| - 1] else rest
  }

  predicate AllDefined(s: seq<Option<real>>)
  {
    forall i :: 0 <= i < |s| ==> s[i].Some?
  }

  predicate AllMissing(s: seq<Option<real>>)
  {
    forall i :: 0 <= i < |s| ==> s[i].None?
  }

  function Values(s: seq<Option<real>>): (r: seq<real>)
    requires AllDefined(s)
    ensures |r| == |s|
  {
    seq(|s|, i requires 0 <= i < |s| => s[i].value)
  }

  /** A column with no missing entry. */
  function Known(xs: seq<real>): (r: seq<Option<real>>)
    ensures |r| == |xs|
  {
    seq(|xs|, i requires 0 <= i < |xs| => Some(xs[i]))
  }

  /** `fillna(d)`: every missing entry becomes `d`. */
  function FillMissing(s: seq<Option<real>>, d: real): (r: seq<real>)
    ensures |r| == |s|
    ensures forall i :: 0 <= i < |s| ==> r[i] == if s[i].Some? then s[i].value else d
  {
    seq(|s|, i requires 0 <= i < |s| => if s[i].Some? then s[i].value else d)
  }

  /**
   * `rolling(w).mean()` read at index t: the mean of the w entries ending at t,
   * missing unless there are w of them and none is missing.
   */
  function RollingMean(s: seq<Option<real>>, w: nat, t: nat): (r: Option<real>)
    requires 1 <= w && t < |s|
    ensures r.Some? <==> w <= t + 1 && AllDefined(s[t + 1 - w .. t + 1])
  {
    if t + 1 < w then None
    else
      var window := s[t + 1 - w .. t + 1];
      if AllDefined(window) then Some(Mean(Values(window))) else None
  }

  /** A defined rolling mean of entries in [lo, hi] lies in [lo, hi]. */
  lemma RollingMeanBounds(s: seq<Option<real>>, w: nat, t: nat, lo: real, hi: real)
    requires 1 <= w && t < |s| && w <= t + 1
    requires forall i :: t + 1 - w <= i <= t ==> s[i].Some? && lo <= s[i].value <= hi
    ensures RollingMean(s, w, t).Some?
    ensures lo <= RollingMean(s, w, t).value <= hi
  {
    var window := s[t + 1 - w .. t + 1];
    assert AllDefined(window) by {
      forall i | 0 <= i < w ensures window[i].Some? {
        assert window[i] == s[t + 1 - w + i];
      }
    }
    var vs := Values(window);
    forall i | 0 <= i < |vs| ensures lo <= vs[i] <= hi {
      assert window[i] == s[t + 1 - w + i];
    }
    SumBounds(vs, lo, hi);
    var n := w as real;
    assert RollingMean(s, w, t) == Some(Sum(vs) / n);
    QuotientBounds(Sum(vs), n, lo, hi);
  }

  /** On a complete column a rolling mean is defined once w bars exist and is their mean. */
  lemma RollingMeanKnown(xs: seq<real>, w: nat, t: nat)
    requires 1 <= w <= t + 1 && t < |xs|
    ensures RollingMean(Known(xs), w, t) == Some(Mean(xs[t + 1 - w .. t + 1]))
  {
    KnownWindow(xs, t + 1 - w, t + 1);
  }

  /** On a complete column scaled by k, the rolling mean is k times the window's mean. */
  lemma RollingMeanScaled(xs: seq<real>, ys: seq<real>, k: real, w: nat, t: nat)
    requires 1 <= w <= t + 1 && t < |xs| == |ys|
    requires forall i :: 0 <= i < |xs| ==> ys[i] == xs[i] * k
    ensures RollingMean(Known(ys), w, t) == Some(Mean(xs[t + 1 - w .. t + 1]) * k)
  {
    var lo := t + 1 - w;
    RollingMeanKnown(ys, w, t);
    WindowScaled(xs, ys, k, lo, t + 1);
    var m := Mean(xs[lo .. t + 1]) * k;
    assert Mean(ys[lo .. t + 1]) == m;
    assert RollingMean(Known(ys), w, t) == Some(m);
    assert Mean(xs[t + 1 - w .. t + 1]) * k == m;
  }

  /** A window of a scaled column has k times the window's mean. */
  lemma WindowScaled(xs: seq<real>, ys: seq<real>, k: real, lo: nat, hi: nat)
    requires lo < hi <= |xs| == |ys|
    requires forall i :: 0 <= i < |xs| ==> ys[i] == xs[i] * k
    ensures Mean(ys[lo..hi]) == Mean(xs[lo..hi]) * k
  {
    var recent, scaled := xs[lo..hi], ys[lo..hi];
    forall i | 0 <= i < hi - lo ensures scaled[i] == recent[i] * k {
      assert scaled[i] == ys[lo + i];
      assert recent[i] == xs[lo + i];
    }
    MeanScale(recent, scaled, k);
  }

  /** Scaling every term scales the mean. */
  lemma MeanScale(s: seq<real>, t: seq<real>, k: real)
    requires |t| == |s| > 0
    requires forall i :: 0 <= i < |s| ==> t[i] == s[i] * k
    ensures Mean(t) == Mean(s) * k
  {
    SumScale(s, t, k);
    var n := |s| as real;
    assert Sum(s) / n * n == Sum(s);
    assert Sum(s) * k / n * n == Sum(s) * k;
    assert (Sum(s) / n * k) * n == Sum(s) * k;
  }

  /** A window of a complete column is complete and holds the column's values. */
  lemma KnownWindow(xs: seq<real>, lo: nat, hi: nat)
    requires lo <= hi <= |xs|
    ensures AllDefined(Known(xs)[lo..hi])
    ensures Values(Known(xs)[lo..hi]) == xs[lo..hi]
  {
    var window := Known(xs)[lo..hi];
    assert forall i :: 0 <= i < hi - lo ==> window[i] == Known(xs)[lo + i];
  }

  /** A defined rolling mean of entries that are all at least lo is at least lo. */
  lemma RollingMeanAtLeast(s: seq<Option<real>>, w: nat, t: nat, lo: real)
    requires 1 <= w && t < |s|
    requires RollingMean(s, w, t).Some?
    requires forall i :: t + 1 - w <= i <= t ==> s[i].Some? ==> lo <= s[i].value
    ensures lo <= RollingMean(s, w, t).value
  {
    var start := t + 1 - w;
    var window := s[start .. t + 1];
    var hi := Max(Values(window));
    forall i | start <= i <= t ensures s[i].Some? && lo <= s[i].value <= hi {
      assert window[i - start] == s[i];
      assert Values(window)[i - start] == s[i].value;
    }
    RollingMeanBounds(s, w, t, lo, hi);
  }

  lemma QuotientBounds(a: real, n: real, lo: real, hi: real)
    requires n > 0.0 && n * lo <= a <= n * hi
    ensures lo <= a / n <= hi
  {
    var q := a / n;
    assert q * n == a;
    assert (q - lo) * n == a - n * lo;
    assert (hi - q) * n == n * hi - a;
  }

  /** `rolling(w).max()` read at index t: the maximum of the w entries ending at t. */
  function RollingMax(s: seq<real>, w: nat, t: nat): (r: Option<real>)
    requires 1 <= w && t < |s|
    ensures r.Some? <==> w <= t + 1
    ensures r.Some? ==> forall i :: t + 1 - w <= i <= t ==> s[i] <= r.value
    ensures r.Some? ==> exists i :: t + 1 - w <= i <= t && s[i] == r.value
  {
    if t + 1 < w then None
    else
      var window := s[t + 1 - w .. t + 1];
      var m := Max(window);
      assert forall i :: t + 1 - w <= i <= t ==> s[i] == window[i - (t + 1 - w)];
      Some(m)
  }

  /** The last present entry, if any. */
  function LastPresent(s: seq<Option<real>>): (r: Option<real>)
    ensures r.None? <==> AllMissing(s)
    ensures r.Some? ==> exists i :: 0 <= i < |s| && s[i] == r && AllMissing(s[i + 1..])
  {
    if s == [] then None
    else if s[|s| - 1].Some? then
      assert AllMissing(s[|s|..]);
      s[|s| - 1]
    else
      var init := s[..|s| - 1];
      var r := LastPresent(init);
      assert AllMissing(init) ==> AllMissing(s);
      assert r.Some? ==> exists i :: 0 <= i < |s| && s[i] == r && AllMissing(s[i + 1..]) by {
        if r.Some? {
          var i :| 0 <= i < |init| && init[i] == r && AllMissing(init[i + 1..]);
          MissingAfter(s, i);
        }
      }
      r
  }

  /** A missing last entry extends a run of missing entries by one. */
  lemma MissingAfter(s: seq<Option<real>>, i: nat)
    requires i + 1 < |s| && s[|s| - 1].None?
    requires AllMissing(s[..|s| - 1][i + 1..])
    ensures AllMissing(s[i + 1..])
  {
    assert s[i + 1..] == s[..|s| - 1][i + 1..] + [s[|s| - 1]];
  }

  /**
   * `ffill`: every entry is replaced by the last present entry at or before
   * it (`ForwardFillKeeps`, `ForwardFillGap` and `ForwardFillMissing` say
   * what that gives).
   */
  function ForwardFill(s: seq<Option<real>>): (r: seq<Option<real>>)
    ensures |r| == |s|
  {
    seq(|s|, i requires 0 <= i < |s| => FilledAt(s, i))
  }

  /** Forward fill keeps every present entry. */
  lemma ForwardFillKeeps(s: seq<Option<real>>, i: nat)
    requires i < |s| && s[i].Some?
    ensures ForwardFill(s)[i] == s[i]
  {
    assert s[..i + 1][i] == s[i];
  }

  /** The forward-filled entry at i: the last present entry among 0..i. */
  function FilledAt(s: seq<Option<real>>, i: nat): Option<real>
    requires i < |s|
  {
    LastPresent(s[..i + 1])
  }

  /** Forward fill leaves an entry missing exactly when no entry up to it is present. */
  lemma ForwardFillMissing(s: seq<Option<real>>, i: nat)
    requires i < |s|
    ensures ForwardFill(s)[i].None? <==> AllMissing(s[..i + 1])
  {
    assert ForwardFill(s)[i] == FilledAt(s, i);
  }

  /** A missing entry takes the filled value of the entry just before it. */
  lemma ForwardFillGap(s: seq<Option<real>>, i: nat)
    requires 1 <= i < |s| && s[i].None?
    ensures ForwardFill(s)[i] == ForwardFill(s)[i - 1]
  {
    assert s[..i + 1][..i] == s[..i];
  }

  /** Forward fill leaves a column with no missing entry unchanged. */
  lemma ForwardFillDefined(s: seq<Option<real>>)
    requires AllDefined(s)
    ensures ForwardFill(s) == s
  {
    forall i | 0 <= i < |s| ensures ForwardFill(s)[i] == s[i] {
      ForwardFillKeeps(s, i);
    }
  }

  /** `cumsum`: starts at the first entry and then adds one entry per step. */
  function CumSum(s: seq<real>): (r: seq<real>)
    ensures |r| == |s|
    ensures s != [] ==> r[0] == s[0]
    ensures forall i :: 1 <= i < |s| ==> r[i] == r[i - 1] + s[i]
  {
    var r := seq(|s|, i requires 0 <= i < |s| => Sum(s[..i + 1]));
    assert s != [] ==> r[0] == s[0] by {
      if s != [] {
        assert s[..1][..0] == [];
        assert s[..1][0] == s[0];
        assert Sum(s[..1]) == Sum(s[..1][..0]) + s[..1][0];
      }
    }
    assert forall i :: 1 <= i < |s| ==> r[i] == r[i - 1] + s[i] by {
      forall i | 1 <= i < |s| ensures r[i] == r[i - 1] + s[i] {
        assert s[..i + 1][..i] == s[..i];
      }
    }
    r
  }
}
