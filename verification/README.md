# Pump signal scanner: the signal-evaluation core in Dafny

The scanner polls a market-data source for the newest Solana trading pairs.
For each pair it downloads a minute-candle history and computes technical
indicators over the closes and volumes. A pair alerts when at least two of
five independent rules pass. This project models that core from `app.py`:

- the indicators: EMA, RSI, OBV, and the rolling mean and rolling max windows;
- `enrich_with_snapshot`, which broadcasts the pair's liquidity and market cap
  onto the candle table, and adds USD volume (volume times the USD price);
- the admission `guards`;
- four of the rules: EMA cross, RSI reclaim, OBV leads and market-cap ROC;
- `scan_once`, which drives the voting over at most 20 pairs.

Modules, one per file:

| module | file | contents |
|---|---|---|
| `Config` | `config.dfy` | the constants of `app.py` and the fixed windows the rules use |
| `Series` | `series.dfy` | pandas column arithmetic |
| `Indicators` | `indicators.dfy` | EMA, RSI and OBV |
| `Market` | `market.dfy` | candles and pair records |
| `Frames` | `frames.dfy` | the per-pair table |
| `Rules` | `rules.dfy` | the four rules |
| `Admission` | `guard.dfy` | `guards` |
| `Scanner` | `scanner.dfy` | the vote and `scan_once` |

`Series` covers these pandas operations:

- `rolling(w).mean()`, which is missing unless all `w` cells exist;
- `rolling(w).max()`;
- `fillna`, `ffill` and `cumsum`.

How `Frames` models the table:

- `Frame` is the table as a value. An absent column is `None` and a NaN cell is `None`.
- `DataFrame` is the mutable table that `enrich_with_snapshot` changes in place.

How the rules behave:

- Each rule returns a `Verdict`: `Fires`, `Silent` or `Raises`.
- `Raises` stands for an index or column lookup that throws in Python.
- The vote treats `Raises` as not passing.

Two collaborators of `scan_once` are parameters:

- **`candlesOf`** maps a pair address to its candle list. It stands for `get_candles`. An answer with a status other than 200, or one with no candles, is the empty list.
- **`boll`** gives the Bollinger squeeze-breakout verdict on a close column. It stands for `rule_boll_breakout`.

What `ScanOnce` returns:

- each examined pair's `Outcome`: no address, too short, rejected, or voted with its hits;
- the alerts, which are the messages the scan would send.

Floating-point numbers are modelled as exact reals. Two NaN rules from the
source are written out where they decide a branch:

- a comparison with NaN is false;
- NaN is truthy in `x or 1`.

A few properties that the proofs make visible:

- **The market-cap rule never fires on a scanned pair** (`Rules.McapRocInertAfterEnrichment`, `Scanner.AlertSignals`). Enrichment writes one market cap onto every bar. When the snapshot has one, the 5-bar change is 0%. When it has none, every cell is NaN and the rule returns early (app.py:136-137). In effect an alert needs two of the other four rules.
- **A pair without a USD price is never admitted** (`Admission.GuardRejectsMissingPrice`). Every USD volume cell is NaN, so the 20-bar volume average is NaN.
- **Once the price is known, both the guard and the EMA-cross confirmation reduce to raw volume times price** (`Admission.GuardVolumeWithPrice`, `Rules.EmaCrossVolumeConfirmation`).

## Model

| member | source | states |
|---|---|---|
| `Series.FillMissing` | app.py:106 | `fillna(d)`: one cell per bar, holding the cell's value where it is present and d where it is missing |
| `Series.Max` | app.py:131-132 | the maximum is an element of the window and bounds every element |
| `Series.RollingMean` | app.py:46-47 | a trailing mean is defined exactly when `w` bars exist and none of them is missing |
| `Series.RollingMeanBounds` | app.py:46-47 | a defined rolling mean of values in [lo, hi] lies in [lo, hi] |
| `Series.RollingMeanKnown` | app.py:109 | on a column with no missing cell, the rolling mean at bar t is the mean of the last `w` values |
| `Series.RollingMeanScaled` | app.py:94 | a rolling mean of a column scaled by k is k times the rolling mean of the original column (USD volume is volume times price) |
| `Series.RollingMeanAtLeast` | app.py:46-47 | a defined rolling mean of values that are all at least lo is at least lo |
| `Series.RollingMax` | app.py:131-132 | the rolling max is defined once `w` bars exist; it bounds each of those bars and equals one of them |
| `Series.LastPresent` | app.py:138 | the last present entry is missing iff all entries are; otherwise it is an entry followed only by missing ones |
| `Series.ForwardFill` | app.py:138 | forward fill keeps the column's length; its cells are stated by `ForwardFillKeeps`, `ForwardFillGap` and `ForwardFillMissing` |
| `Series.ForwardFillKeeps` | app.py:138 | forward fill keeps every present cell |
| `Series.ForwardFillGap` | app.py:138 | a missing cell after bar 0 takes the filled value of the cell just before it |
| `Series.ForwardFillMissing` | app.py:138 | a filled cell is missing iff every cell up to and including it is missing |
| `Series.ForwardFillDefined` | app.py:138 | forward fill leaves a column with no gaps unchanged |
| `Series.CumSum` | app.py:53 | the cumulative sum starts at the first entry, and each later entry is the previous one plus that bar's cell |
| `Indicators.Alpha` | app.py:34-35 | the smoothing factor 2/(span+1) lies in (0, 1] |
| `Indicators.Ema` | app.py:34-35 | one EMA value per bar, and the first value is the first input (`adjust=False`) |
| `Indicators.EmaRecurrence` | app.py:34-35 | after bar 0, ema[t] = α·x[t] + (1-α)·ema[t-1] |
| `Indicators.EmaCausal` | app.py:34-35 | the EMA at bar t depends only on bars 0..t |
| `Indicators.EmaSpanOne` | app.py:34-35 | span 1 reproduces the input |
| `Indicators.EmaLastBounded` | app.py:34-35 | the EMA at the last bar lies within the inputs' range |
| `Indicators.EmaBounded` | app.py:34-35 | every EMA value lies within the inputs' range |
| `Indicators.EmaConstant` | app.py:34-35 | a constant input gives a constant EMA |
| `Indicators.Gains` | app.py:43-44 | one gain per bar: missing on bar 0 (the first difference is NaN), non-negative after |
| `Indicators.Losses` | app.py:43-45 | one loss per bar: missing on bar 0, non-negative after |
| `Indicators.GainLossSplit` | app.py:43-45 | after bar 0, gain minus loss is the price change, and one of the two is 0 |
| `Indicators.AverageGain` | app.py:46 | the 14-bar mean gain is defined from bar n on (the first difference is NaN) and is never negative |
| `Indicators.AverageLoss` | app.py:47 | the mean loss is defined from bar n on and is never negative |
| `Indicators.DifferenceWindow` | app.py:43-47 | a rolling mean over a difference column whose bar 0 is NaN is defined from bar n and is non-negative |
| `Indicators.RsiFormula` | app.py:47-49 | 100 - 100/(1+RS) with the loss floor 1e-9: lies in [0, 100), is 0 without gain, and exceeds 50 iff the gain exceeds the floored loss |
| `Indicators.RsiAt` | app.py:42-49 | the RSI at bar t is defined iff t >= n |
| `Indicators.Rsi` | app.py:42-49 | one value per bar; defined from bar n on and always in [0, 100) |
| `Indicators.RsiFlat` | app.py:42-49 | a flat price gives RSI 0 wherever RSI is defined |
| `Indicators.SignedStep` | app.py:52-53 | sign(cur - prev)·v: v on a rise, -v on a fall, 0 when flat |
| `Indicators.SignedVolume` | app.py:51-53 | 0 on bar 0 (the first difference is NaN, filled with 0); after it, +volume on an up bar, -volume on a down bar, 0 on a flat one |
| `Indicators.Obv` | app.py:51-53 | OBV starts at 0, and each later value is the previous one plus that bar's signed volume |
| `Indicators.ObvFlat` | app.py:51-53 | a flat price gives OBV 0 on every bar |
| `Market.LiquidityUsd` | app.py:84-87 | `usd or base or 0`: usd when non-zero, else base when non-zero, else 0, and 0 only then |
| `Market.MarketCap` | app.py:96-99 | `fdv or marketCap or nan`: present iff one of them is non-zero; fdv when it is non-zero, else marketCap; never 0 |
| `Frames.FromCandles` | app.py:75-78 | the table built from the candles has their close and volume columns and no snapshot column |
| `Frames.VolumeUsd` | app.py:90-94 | a USD volume cell is present iff there is a price, and then it is volume times price |
| `Frames.Enriched` | app.py:82-101 | enrichment keeps the candle columns, makes liquidity and market cap constant columns, and makes USD volume present iff the pair has a price |
| `Frames.PricedVolume` | app.py:90-94 | with a price, every USD volume cell is volume times price |
| `Frames.PricedVolumeColumn` | app.py:90-94 | with a price, the USD volume column has no gaps and is volume times price |
| `Frames.DataFrame.constructor` | app.py:75-78 | the new table is the table of the candles |
| `Frames.DataFrame.EnrichWithSnapshot` | app.py:82-101 | the table in place becomes the enriched table of its old contents |
| `Rules.RuleEmaCross` | app.py:104-111 | raises iff there is no USD volume column or fewer than 2 bars; fires only with at least 20 bars (before that the 20-bar mean is NaN) |
| `Rules.EmaCrossNeedsFreshCross` | app.py:104-111 | firing implies at least 20 bars, EMA9 < EMA21 on the second-to-last bar, and EMA9 > EMA21 on the last |
| `Rules.EmaCrossSilentOnFlatPrice` | app.py:104-108 | a flat price never crosses |
| `Rules.EmaCrossVolumeConfirmation` | app.py:104-111 | with a price, the rule fires iff the EMAs cross freshly and last volume × price > 1.5 × (20-bar mean volume × price, or 1 when that is 0) |
| `Rules.FilledPricedVolume` | app.py:106 | with a price, the zero-filled USD volume is volume times price |
| `Rules.VolumeConfirmedScaled` | app.py:109-110 | the USD volume confirmation equals the same test on raw volume scaled by the price |
| `Rules.EmaCrossSilentWithoutPrice` | app.py:106-110 | without a price the filled USD volume is all 0, so the rule never fires |
| `Rules.RuleRsiReclaim` | app.py:124-126 | raises iff the table is empty; fires only with more than 14 bars |
| `Rules.RsiReclaimIff` | app.py:124-126 | the rule fires iff there are more than 14 bars and the 14-bar mean gain exceeds the floored mean loss |
| `Rules.RsiReclaimSilentOnFlatPrice` | app.py:124-126 | a flat price never reclaims 50 |
| `Rules.RuleObvLeads` | app.py:128-133 | raises iff there are fewer than 2 bars; fires only with more than 50 bars |
| `Rules.NewHighIff` | app.py:131-132 | `x[t] > rolling(w).max()[t-1]` iff w earlier bars exist and x[t] beats each of them |
| `Rules.ObvLeadsIff` | app.py:128-133 | the rule fires iff there are 51 bars, the last OBV beats each of the 50 before it, and some close among those 50 is at least the last close |
| `Rules.ObvLeadsSilentOnFlatPrice` | app.py:128-133 | a flat price gives flat OBV, which never makes a new high |
| `Rules.RuleMcapRoc` | app.py:135-139 | never raises; fires only with a market-cap column that has a present cell and more than 5 bars |
| `Rules.McapRocSilentWhenMissing` | app.py:136-137 | with no market-cap column, or only NaN in it, the rule is silent |
| `Rules.McapRocOnComplete` | app.py:135-139 | on a complete column the rule compares the last cap with the cap five bars back |
| `Rules.FilledRocComplete` | app.py:138 | on a column with no gaps, the forward-filled 5-bar change compares the last cap with the cap five bars back |
| `Rules.RiseOnColumn` | app.py:138-139 | on a column with no gaps and a positive cap five bars back, the change fires iff the last cap exceeds 1.05 times that cap |
| `Rules.McapRocRise` | app.py:135-139 | for a positive base the rule fires iff the cap rose above 1.05 times the base |
| `Rules.RocExceedsPercentage` | app.py:138-139 | for a non-zero base, the division-free threshold test agrees with (c/b - 1)·100 > 5 |
| `Rules.RocRise` | app.py:138-139 | for a positive base b the threshold test passes iff c > 1.05·b |
| `Rules.RocUnchanged` | app.py:138-139 | an unchanged non-zero value does not pass the threshold test |
| `Rules.McapRocInertAfterEnrichment` | app.py:97-100 | on any enriched table the market-cap rule is silent, because the broadcast cap never changes |
| `Admission.VolumeColumn` | app.py:142 | the guard averages the USD volume column itself when it exists, and raw volume otherwise |
| `Admission.VolumeOk` | app.py:142-144 | passing implies at least 20 bars and, with a USD volume column, all of its last 20 cells present |
| `Admission.LiquidityOk` | app.py:145 | passing implies a liquidity column whose last cell is at least 30000 |
| `Admission.Guards` | app.py:141-146 | admission implies at least 20 bars and a liquidity column whose last cell is at least 30000 |
| `Admission.GuardsOnSnapshot` | app.py:141-146 | after enrichment the liquidity test reads the snapshot's liquidity figure |
| `Admission.GuardVolumeWithPrice` | app.py:142-144 | with a price, the volume test passes iff there are 20 bars and mean volume × price >= 3000 |
| `Admission.GuardRejectsMissingPrice` | app.py:143-146 | without a price no enriched table is admitted |
| `Admission.AdmittedPair` | app.py:141-146 | an admitted enriched table belongs to a pair with a price and liquidity >= 30000 |
| `Admission.GuardRejectsShortHistory` | app.py:143-144 | fewer than 20 bars are never admitted |
| `Scanner.Rank` | app.py:166 | each rule's position in the consultation order |
| `Scanner.RankOfPosition` | app.py:166 | the consultation order names each rule once |
| `Scanner.Passing` | app.py:167-171 | the passing set holds exactly the rules that return true; a rule that raises is not in it |
| `Scanner.Hits` | app.py:165-171 | no more hits than rules consulted |
| `Scanner.HitsMembership` | app.py:165-171 | a rule is a hit iff it was consulted and passes |
| `Scanner.HitsAscending` | app.py:165-171 | filtering an ordered rule list keeps it ordered |
| `Scanner.HitsOrdered` | app.py:165-171 | hits are in consultation order with no repeats |
| `Scanner.HitsAppend` | app.py:171 | consulting one more rule appends it when it passes |
| `Scanner.Vote` | app.py:165-171 | the loop's hits are the passing rules in consultation order: membership iff passing, and strictly ordered |
| `Scanner.Address` | app.py:154 | `pairAddress or address`: present iff one is non-empty; pairAddress when it is non-empty, else address |
| `Scanner.Symbol` | app.py:155 | `symbol or name or "?"`: never empty |
| `Scanner.AdmittedTable` | app.py:161-171 | an admitted table has a priced, liquid pair, no rule raises on it, and the market-cap rule is never a hit |
| `Scanner.McapRocNeverHit` | app.py:161-171 | the market-cap rule is never among the hits of an enriched table |
| `Scanner.Evaluation` | app.py:154-171 | no address iff neither address field is non-empty; too short iff the address's candle list has fewer than 60 candles; rejected iff the pair has an address and 60 candles but its enriched table fails `guards`; a vote's hits are the passing rules in consultation order, at most five |
| `Scanner.VotedPair` | app.py:154-171 | a pair reaches the vote only with an address, 60 candles, a price and liquidity >= 30000, and never with the market-cap rule among its hits |
| `Scanner.EvaluatePair` | app.py:154-171 | the loop body on a mutable table yields the pair's outcome |
| `Scanner.AlertFor` | app.py:173 | an alert exists iff the pair was voted on with at least two hits, and it carries the symbol and the hits |
| `Scanner.Alerts` | app.py:153-183 | at most one alert per pair examined; each has at least two signals and a non-empty label |
| `Scanner.AlertsAppend` | app.py:153-183 | one more pair examined appends its alert, if any |
| `Scanner.AlertsMembership` | app.py:153-183 | an alert of the scan is exactly the alert of one of its pairs |
| `Scanner.AlertSignals` | app.py:165-173 | every alert of a scan names at least two rules, in consultation order, never the market-cap rule |
| `Scanner.ScanStep` | app.py:153-173 | one loop iteration appends the pair's outcome and its alert, if any |
| `Scanner.ScanOnce` | app.py:149-183 | examines min(\|pairs\|, 20) pairs from the front in order, each with its own outcome; the alerts are those of the pairs examined, at most 20, each with at least two signals |

## Left out

- Fetching pairs and candles (`get_new_solana_pairs`, `get_candles`, app.py:56-80) is network I/O. The pair list is a parameter, taken as already sorted newest first. `candlesOf` stands for the candle download, including its 120-candle lookback slice.
- `send_tg`, the Telegram and console output, and the message text of app.py:174-183 are I/O and formatting. An alert keeps only the symbol and the signal names.
- The metric dictionaries each rule returns are dropped, because `scan_once` discards them.
- An exception raised while fetching ends `scan_once` early, and the remaining pairs are not examined. This covers a request that fails in `requests.get` or an answer whose body is not the expected JSON (app.py:59-61, 69, 72). Only `main` catches it (app.py:188-191). `ScanOnce` always examines min(|pairs|, 20) pairs.
- `main` (app.py:185-192) is not modelled: its endless loop, its sleep, and the exception handler that restarts the scan.
- `bollinger` and `rule_boll_breakout` (app.py:37-40, 113-122) are not modelled; their verdict is the parameter `boll`. The rolling standard deviation and `nanpercentile` would need floating-point statistics.
- Floating point is not modelled. The model uses exact reals, so rounding and overflow are not captured. NaN and ±inf appear only where they decide a branch:
  - a comparison with NaN is false;
  - `x or 1` keeps NaN;
  - a percentage change from a zero base is +inf for a positive current value (it passes the threshold), -inf for a negative one and NaN for zero (neither passes). `Rules.RocExceeds` states the test without division; `Rules.RocExceedsPercentage` ties it to the percentage for a non-zero base.
- `os` is used at app.py:17 but only imported at app.py:195, under `__main__`. Importing the module as written fails with a NameError. The model assumes the Telegram settings are read.
- The `time`, `open`, `high` and `low` candle columns are not modelled. No rule reads them.
- JSON values of the wrong type are not modelled:
  - `priceUsd` is taken as the number its text parses to (None when absent, empty or not numeric);
  - liquidity, fdv and market cap are taken to be numbers or absent;
  - candle fields are taken to be numbers.
- A `baseToken` or `liquidity` field that is present but JSON null is not modelled. In the source, `.get` on it raises and aborts the whole scan.
- `Admission.VolumeOk`: the source's `vavg is not None` is always true for a pandas float. The test that matters is the NaN comparison, which the model states as "the 20-bar average exists".
- `Rules.RuleMcapRoc`: modelled with pandas' default pad fill for `pct_change`. Later pandas versions may default to no fill. The difference only shows on a column that mixes NaN and present cells. Enrichment never makes one: the broadcast market cap is present on every bar or NaN on every bar, and an all-NaN column returns early (app.py:136-137).
