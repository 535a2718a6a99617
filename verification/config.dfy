/** The scanner's configuration constants and the fixed windows its rules use. */
module Config {

  /** Newest pairs examined per scan. */
  const PairsPerScan: nat := 20
  /** Candles a pair needs before it is evaluated. */
  const MinCandles: nat := 60
  /** Minimum 20-bar average USD volume. */
  const MinAbsVolumeUsd: real := 3000.0
  /** Minimum liquidity in USD. */
  const MinLiqUsd: real := 30000.0
  /** Bars over which the market-cap rate of change is taken. */
  const RocWindow: nat := 5
  /** Percentage the market-cap rate of change must exceed. */
  const RocThreshold: real := 5.0
  /** The last bar's volume must exceed this multiple of its 20-bar average. */
  const VolMultConfirm: real := 1.5
  /** Passing rules needed for an alert. */
  const MinSignalsRequired: nat := 2

  const FastSpan: nat := 9
  const SlowSpan: nat := 21
  const RsiWindow: nat := 14
  const RsiLevel: real := 50.0
  /** Window of the rolling volume mean used by the guard and the EMA-cross rule. */
  const VolumeWindow: nat := 20
  /** Window of the rolling maxima used by the OBV-leads rule. */
  const HighWindow: nat := 50
}
