/**
 * What the market-data source hands the scanner: candles and pair records.
 * Fields that may be absent from a record are `Option`s; a numeric field
 * that is present but zero is "falsy" in the scanner's fallbacks.
 */
module Market {
  import opened Wrappers

  /** One bar of a pair's candle history (only the columns the core reads). */
  datatype Candle = Candle(close: real, volume: real)

  /** The `liquidity` object of a pair record; an absent object has neither field. */
  datatype Liquidity = Liquidity(usd: Option<real>, base: Option<real>)

  /**
   * A pair record. `priceUsd` is the number its text parses to, None when the
   * field is absent, empty or not a number.
   */
  datatype Pair = Pair(
    pairAddress: Option<string>,
    address: Option<string>,
    symbol: Option<string>,
    name: Option<string>,
    liquidity: Liquidity,
    priceUsd: Option<real>,
    fdv: Option<real>,
    marketCap: Option<real>)

  /** A number that Python's `or` keeps: present and non-zero. */
  predicate Truthy(x: Option<real>)
  {
    x.Some? && x.value != 0.0
  }

  /** A string that Python's `or` keeps: present and non-empty. */
  predicate TruthyText(x: Option<string>)
  {
    x.Some? && x.value != ""
  }

  /** `usd or base or 0`: each fallback is taken when the earlier value is absent or zero. */
  function LiquidityUsd(l: Liquidity): (r: real)
    ensures Truthy(l.usd) ==> r == l.usd.value
    ensures !Truthy(l.usd) && Truthy(l.base) ==> r == l.base.value
    ensures r == 0.0 <==> !Truthy(l.usd) && !Truthy(l.base)
  {
    if Truthy(l.usd) then l.usd.value
    else if Truthy(l.base) then l.base.value
    else 0.0
  }

  /** `float(fdv or marketCap or nan)`: missing unless one of them is non-zero, so never 0. */
  function MarketCap(p: Pair): (r: Option<real>)
    ensures r.Some? <==> Truthy(p.fdv) || Truthy(p.marketCap)
    ensures Truthy(p.fdv) ==> r == p.fdv
    ensures !Truthy(p.fdv) && Truthy(p.marketCap) ==> r == p.marketCap
    ensures r != Some(0.0)
  {
    if Truthy(p.fdv) then p.fdv
    else if Truthy(p.marketCap) then p.marketCap
    else None
  }
}
