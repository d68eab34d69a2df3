# Stock-watch dashboard: decision core in Dafny

This project models the pure decision logic of a Streamlit dashboard for
Shanghai, Shenzhen and Hong Kong stocks, and proves properties of it. The
logic covered is:

- ticker code normalisation (`convert_code`);
- the configuration key back-fill of `load_config`;
- the Sina quote-line parser, used by both the single and the batch readers;
- the history provider's trailing moving averages;
- the derived-metrics engine: MA deviations, the volume ratio on the
  two-session trading clock, and the premium over the benchmark index;
- the scan loop's watch-strategy and holding-risk alerts;
- the holdings-tab status, the watch-table signal, and the bulk import of
  pasted codes.

The network, the history service, the clock and the configuration file become
parameters:

- quote responses are a map from feed symbol to response text;
- daily bars are a map from history-source code to a sequence of bars;
- the time of day is a count of microseconds since midnight;
- the configuration is an already-parsed JSON value.

Prices are exact reals. Where numpy divides without raising (the index
premium), the model keeps its `inf`/`-inf`/`NaN` results in the
`Floats.Float` type.

Modules, one per file:
- `Wrappers`: `Option` and dictionary `get`.
- `Text`: Python's `split`, `join`, `in`, `strip` and `lower`, on `seq<char>`.
- `Decimal`: the part of `float()` the feed uses, which is decimal literals.
- `Floats`: IEEE special values and pandas' NaN-skipping mean.
- `Utils`: code conversion.
- `Config`: the default back-fill.
- `Quotes`: the quote parser and the single and batch readers.
- `History`: bars and the rolling mean.
- `Metrics`: the metrics engine.
- `Alerts`: the rules, status and signal.
- `Scan`: the scan loop.
- `BulkImport`: the paste-and-import feature.

Behaviour of the code worth knowing:
- MA deviations are zero for a missing history, but also for any history shorter than ten sessions, so "all four zero" does not mean "no history" (`Metrics.ShortHistoryZeroDeviations`).
- The premium division is not guarded. A zero fair price gives `inf`, not 0 (`Metrics.PremiumZeroFair`). An all-NaN ratio window gives NaN.
- The alert rules never check whether the metrics were computed. The zero sentinel raises band or market alerts whenever that threshold is positive (`Alerts.SentinelAlerts`).
- Between 11:30 and 13:00 the trading-minute clock falls back to 1, not 120 (`Metrics.LunchBreakResetsClock`).

## Model

| member | source | states |
|---|---|---|
| Utils.MarketPrefix | utils.py:62 | The A-share prefix is "sh" exactly for exchange SS, and "sz" for every other exchange |
| Utils.ConvertCode | utils.py:47-65 | A symbol without a dot is returned unchanged. HK gives "hk"+code for the feed target and the symbol itself for any other target. A-shares give prefix+code for the feed target, prefix+"."+code for the history target, and the symbol unchanged for an unknown target |
| Utils.SinaRoundTrip | utils.py:57-63 | For a canonical ticker, the feed symbol's two-letter prefix identifies the exchange, and the rest of the symbol is the code, so the ticker can be read back |
| Utils.SinaInjective | utils.py:57-63 | Distinct canonical tickers never share a feed symbol |
| Utils.BaostockRoundTrip | utils.py:57-64 | An A-share ticker reads back from its history-source symbol. An HK ticker passes through unchanged |
| Config.FillMissing | utils.py:34-35 | Every key already present keeps its value, every missing default key is added with its default, and no other key appears |
| Config.BackFillThresholds | utils.py:36-38 | A thresholds object gains each missing threshold key and keeps its existing values. Any other value survives only if Python's `in` already finds every key, otherwise the loop raises |
| Config.BackFillThresholdsObject | utils.py:36-38 | A thresholds object ends up with exactly its own keys plus the three threshold keys; each missing key takes its built-in value and every present value is kept |
| Config.EmptyThresholdsTakeDefaults | utils.py:16-20 | An empty thresholds object is filled with 3 for short-term, −5 for band and −8 for market |
| Config.BackFill | utils.py:33-38 | After the back-fill the keys are the original keys plus the defaults. Existing entries are kept and missing ones take the default. Every threshold key is present. The back-fill cannot raise when thresholds is an object or missing |
| Config.BackFillKeepsThresholds | utils.py:36-38 | Threshold values already configured are never overwritten |
| Config.BackFillIdempotent | utils.py:33-38 | Running the back-fill a second time changes nothing |
| Config.BackFillIdempotentDefaults | utils.py:8-21 | The default document is already complete |
| Config.LoadConfig | utils.py:23-40 | A missing or unparsable file yields the defaults. A parsed object yields exactly its back-fill, so every default key and threshold key is present and the user's entries are kept. A non-object document raises |
| Config.LoadSavedConfig | utils.py:23-40 | A back-filled document, once written back and loaded again, comes back unchanged |
| Decimal.ParseShowNat | data_service.py:174-191 | `float()` reads an integer numeral, or its negation, back as the number it denotes |
| Decimal.ParseFixedPoint | data_service.py:174-191 | `float()` reads a fixed-point numeral (a whole part, a dot and any digits), or its negation, back as the whole part plus the fraction digits over ten to their count |
| Decimal.ParseFeedPrice | data_service.py:174-176 | The feed's price text "1723.500" reads as 1723.5 |
| Quotes.ChangePct | data_service.py:190 | With a positive previous close, the change percent times that close equals the price move times 100, and its sign follows the move. Otherwise it is 0 and nothing is divided |
| Quotes.ParseSinaResponse | data_service.py:163-193 | Content without `="` gives the all-zero quote. An HK line needs 13 fields and reads fields 6, 3, 8 and 12. An A-share line needs 9 fields, reads fields 3, 2 and 8, and derives the change. A short or unparsable line gives all zeros |
| Quotes.FeedLineFields | data_service.py:170-171 | The payload extraction (split at `="`, strip `";\n`, split at commas) returns exactly the fields a feed line was built from |
| Quotes.ParseHkFeedLine | data_service.py:170-178 | A well-formed HK feed line yields exactly its price, previous close, change and volume fields |
| Quotes.ParseAShareFeedLine | data_service.py:184-192 | A well-formed A-share feed line yields its price, previous close and volume fields, with the change derived from the two prices |
| Quotes.ShortFeedLineUnavailable | data_service.py:172-186 | A line with fewer fields than its market needs reads as all zeros |
| Quotes.RealtimeSina | data_service.py:195-202 | A multi-dot ticker, or a failed request, gives all zeros. Otherwise the quote is the parse of the response for the ticker's feed symbol |
| Quotes.RealtimeSinaOfFeedLine | data_service.py:163-202 | For a canonical ticker whose feed line carries given fields, the single reader returns the Hong Kong reading of those fields for an HK ticker and the A-share reading otherwise |
| Quotes.CodeMap | data_service.py:214 | Every requested ticker's feed symbol is a key, and each key maps to a requested ticker with that feed symbol |
| Quotes.CodeMapInverts | data_service.py:214 | For canonical tickers, the map sends each feed symbol back to the ticker that produced it |
| Quotes.EchoedSymbolOfFeedLine | data_service.py:218 | The symbol extracted from a feed line is the symbol the line answers for |
| Quotes.RowOf | data_service.py:218-229 | A row is reported under the requested ticker when the echoed symbol is in the map, and under the raw symbol otherwise. Its price, change and volume are the parse of the line under the echoed symbol |
| Quotes.QuoteLines | data_service.py:216-217 | The kept lines all contain `="`, come from the response, and include every response line containing `="` |
| Quotes.QuoteIndices | data_service.py:216-217 | The quote-line positions are in range, strictly increasing, and include every line containing `="` |
| Quotes.QuoteLinesIndexed | data_service.py:216-217 | The kept lines are exactly the lines at the quote-line positions, in order |
| Quotes.BatchRealtime | data_service.py:204-231 | An empty list, a failed request or a multi-dot ticker gives no rows. Otherwise there is one row per quote-carrying line, in order, each built by `RowOf` |
| Quotes.RowsOfQuoteLines | data_service.py:216-231 | Building a row per line while skipping non-quote lines gives exactly one row per kept quote line, position by position |
| Quotes.QuoteLinesOfResponse | data_service.py:216-217 | A response made of quote lines is split back into exactly those lines |
| Quotes.BatchRowNamesTicker | data_service.py:214-225 | The line answering for a requested canonical ticker is reported under that ticker, never under its feed symbol |
| Quotes.BatchRowsRequested | data_service.py:214-225 | When every quote line echoes the symbol of a requested ticker, every batch row is named for a requested ticker |
| Quotes.BatchRowAgreesWithSingle | data_service.py:195-229 | The batch row for a canonical ticker's feed line is named for the ticker and has the price, change and volume the single reader returns for the same response |
| History.MaAt | data_service.py:69 | The rolling mean over `w` closes is defined exactly from the `w`-th bar onward |
| History.MaPositive | data_service.py:69 | With positive closes, every defined moving average is positive |
| History.WindowSumStep | data_service.py:69 | Moving the window one row adds the newest close and, once the window is full, drops the oldest |
| History.RollingMean | data_service.py:69 | The running-sum computation yields, at every row, the mean of the last `w` closes, or undefined before `w` bars exist |
| History.GetHistory | data_service.py:55-58 | A symbol containing "HK", or with several dots, has no bars. Any other symbol gets exactly the bars the service holds for its history-source code, or none |
| History.HkHasNoHistory | data_service.py:56 | A Hong Kong ticker never has history, whatever the service holds |
| History.AShareHistory | data_service.py:55-58 | A Shanghai or Shenzhen ticker with a numeric code gets exactly the bars held under its "sh."/"sz." symbol |
| Metrics.BelongingIndex | data_service.py:75-84 | .SS maps to 000688.SS exactly when the ticker starts with 688, else to 000001.SS. .SZ maps to 399006.SZ exactly when it starts with 30, else to 399001.SZ. .HK maps to 03032.HK. Anything else falls back to 000001.SS |
| Metrics.BenchmarkOnSameExchange | data_service.py:75-83 | The benchmark is listed on the ticker's own exchange |
| Metrics.ElapsedMinutes | data_service.py:118-130 | The trading-minute count lies in [1, 240]. From one minute after 09:30 to 11:30 it is the minutes since 09:30, and 1 in the first minute. From 13:00 to 15:00 it is 120 plus the minutes since 13:00. It is 240 after the close, and 1 before the open and over lunch |
| Metrics.MinutesSinceFloor | data_service.py:121-122 | The minute count reaches 1 exactly when a full minute has passed |
| Metrics.ElapsedMonotone | data_service.py:118-127 | Within the sessions and after the close, the clock never runs backwards |
| Metrics.LunchBreakResetsClock | data_service.py:118-130 | The clock reads 120 at 11:30 and drops to 1 one microsecond later |
| Metrics.Tail | data_service.py:116 | Keeps the last min(n, length) elements, in order, as pandas `tail(n)` does; used for the five-day volume and the 250-row premium window (line 141) |
| Metrics.VolumeRatio | data_service.py:113-131 | The ratio is 0 when the current volume or the five-day average is not positive, and positive otherwise |
| Metrics.VolumeRatioScales | data_service.py:124-131 | A positive ratio times the expected volume so far (five-day average scaled by elapsed trading minutes over 240) gives back the current volume |
| Metrics.VolumeRatioAfterClose | data_service.py:124-131 | After 15:00 the ratio is the current volume over the five-day average |
| Metrics.Deviation | data_service.py:107-111 | A missing or non-positive MA gives 0. Otherwise the deviation times the MA equals (price − MA)·100, and its sign says whether the price is above or below the MA |
| Metrics.MatchesOfSound | data_service.py:136 | Every pair matched for one stock bar carries that bar's close and the close of an index bar of the same date |
| Metrics.MatchesOfHas | data_service.py:136 | Every index bar of the stock bar's date contributes its pair |
| Metrics.DateJoinSound | data_service.py:136 | Every joined row pairs a stock close and an index close from the same date |
| Metrics.DateJoinComplete | data_service.py:136 | Every same-date pair of stock and index bars appears in the join |
| Metrics.DatePos | data_service.py:136 | The position found holds an index bar of the requested date; when none is found, no index bar has that date |
| Metrics.MatchesOfDistinct | data_service.py:136 | With distinct index dates a stock bar joins exactly one index row when an index bar has its date, and none otherwise |
| Metrics.JoinIndices | data_service.py:136 | The stock positions that have a same-date index bar: in range, strictly increasing, and all of them |
| Metrics.DateJoinIndexed | data_service.py:136 | With distinct index dates the join has one row per stock bar with a same-date index bar, in the stock's order; row k pairs that stock bar's close with the close of the index bar of its date, as the inner merge keeps the left frame's order |
| Metrics.IndexPremium | data_service.py:132-146 | The premium is 0 when the index has no history or no dates join |
| Metrics.PercentFromFinite | data_service.py:145 | For a finite, non-zero fair price the percent distance is the finite (price − fair)/fair·100 |
| Metrics.FairValueExact | data_service.py:141-144 | With non-zero index closes, the fair price is the latest index close times the exact mean ratio |
| Metrics.PremiumFormula | data_service.py:142-145 | For a window with non-zero index closes and a non-zero fair price, the premium against it is (price − c·mean ratio)/(c·mean ratio)·100, with c the latest index close |
| Metrics.IndexPremiumClosedForm | data_service.py:136-145 | With index history, joined dates, non-zero index closes and a non-zero fair price, the premium is (price − c·M)/(c·M)·100, with c the latest index close and M the exact mean stock/index ratio of the last 250 joined rows |
| Metrics.PremiumZeroFair | data_service.py:143-145 | A zero latest index close sends the premium of a positive price to +inf, because the division is not guarded |
| Metrics.PremiumNotNegInf | data_service.py:143-145 | With a positive price the premium is never −inf |
| Metrics.CalculateAdvancedMetrics | data_service.py:90-157 | The record names the benchmark index. An empty history gives the all-zero record. Otherwise each field is the corresponding deviation, ratio or premium of the ticker's own history |
| Metrics.ShortHistoryZeroDeviations | data_service.py:106-111 | A non-empty history shorter than ten sessions also gives four zero deviations |
| Metrics.HkMetricsAllZero | data_service.py:56 | A Hong Kong ticker gets the all-zero record under the Hang Seng Tech benchmark |
| Alerts.WatchAlert | app.py:143-147 | At most one watch alert. Short-term fires iff the strategy is short-term and \|change\| > the short threshold. Band fires iff the strategy is band and MA20 deviation < the band threshold. Market fires iff the strategy is market and premium < the market threshold. Any other strategy fires nothing |
| Alerts.MissingStrategyIsBand | app.py:144 | An entry without a strategy is evaluated exactly as a band entry |
| Alerts.NaNPremiumNeverUndervalued | app.py:147 | A NaN premium never raises a market alert |
| Alerts.SentinelAlerts | app.py:146-147 | For the all-zero record, a band or market alert fires exactly when that threshold is positive |
| Alerts.ProfitPct | app.py:154 | With a positive cost, the profit times the cost equals (price − cost)·100, and its sign follows the price move. Otherwise it is 0 |
| Alerts.HoldingAlerts | app.py:150-158 | A support alert fires iff support > 0 and price < support. Take-profit fires iff cost > 0 and profit ≥ target. Stop-loss fires iff cost > 0 and profit ≤ limit. Missing fields default to 0, 999 and −999 |
| Alerts.NoCostNoProfitOrLoss | app.py:154-158 | Without a positive cost, only the support alert can fire, whatever the price |
| Alerts.AllThreeCanFire | app.py:156-158 | The three checks are independent, so one holding can raise all three alerts in one scan |
| Alerts.HoldingStatusAsWritten | app.py:233-239 | The status as computed: support breach first, then profit ≥ target, then profit ≤ limit, else hold. Profit is 0 without a cost, and the defaults are 20 and −10 |
| Alerts.AsWrittenStopsOutWithoutCost | app.py:234-239 | A holding with no cost and a 0% loss limit shows "stop-loss sell", while the scan raises nothing for it |
| Alerts.HoldingStatus | app.py:233-239 | Exactly one status, with precedence support breach > take-profit > stop-loss > hold. Take-profit and stop-loss require a positive cost, as in the scan |
| Alerts.AsWrittenAgreesWithCost | app.py:233-239 | With a positive cost, the status as written and the corrected status coincide |
| Alerts.StatusIsFirstAlert | app.py:150-158 | For a fully specified plan, the status is "hold" exactly when the scan raises no risk alert, and is otherwise the first alert the scan raises |
| Alerts.Ma20Column | app.py:178-180 | The table's MA20 column is the scan's deviation for an analysed ticker, else 0 |
| Alerts.SignalFor | app.py:185-190 | Surge iff short-term and \|change\| > the threshold. Opportunity iff band and MA20 < the band threshold |
| Alerts.TableSignalAsWritten | app.py:175-190 | As written, a watched ticker without a strategy never signals |
| Alerts.TableMissesStrategylessBand | app.py:144-189 | A strategy-less ticker far below its MA20 raises a scan alert but shows no table signal |
| Alerts.TableSignal | app.py:175-190 | The corrected signal agrees with the as-written one whenever a strategy is present |
| Alerts.TableAgreesWithScan | app.py:143-190 | For an analysed ticker, the table signal shows a surge or an opportunity exactly when the scan raises a short-term or band alert |
| Scan.ScanTicker | app.py:135-158 | A ticker whose price is ≤ 0 gets no metrics and no alerts. A priced ticker gets its metrics. Alerts carry the ticker's own code, and a ticker on neither list raises nothing |
| Scan.HoldingOnlyAlerts | app.py:143-158 | A priced ticker that is held but not watched raises exactly the holding alerts for its price |
| Scan.WatchAlertReachesScan | app.py:141-147 | A priced, watched ticker whose watch rule fires raises that alert first |
| Scan.PricedAlertsInScan | app.py:130-158 | No alert is lost: for a priced ticker on either list, its watch alert when the rule fires, and each of its holding alerts, are among the scan's alerts |
| Scan.StatusRow | app.py:230-239 | The holdings tab lists a holding exactly when its price is positive, with the status as the tab computes it, without a cost guard |
| Scan.StatusRowWithCost | app.py:230-239 | For a holding with a positive cost, the listed status is the corrected status, which agrees with the scan's alerts |
| Scan.ScanOverAnalysis | app.py:128-140 | The analysis holds exactly the priced tickers visited, each with its own metrics |
| Scan.AnalysisAlongContents | app.py:133-140 | Storing each ticker's metrics while walking a listing leaves exactly the listed tickers that have metrics, each with its own |
| Scan.ScanOverAlerts | app.py:133-158 | Every alert names a priced ticker that was visited |
| Scan.ScanOverAlong | app.py:133-158 | The scan's alert list is each visited ticker's alerts, concatenated in visiting order |
| Scan.AlertsAlongPermutation | app.py:130-158 | Permuting the visiting order permutes the concatenated per-ticker alerts |
| Scan.ScanOverAppend | app.py:133-158 | Scanning two listings in turn raises the alerts of each in turn |
| Scan.ScanOverPermutation | app.py:130-158 | For one snapshot of the feed, visiting the tickers in any permuted order raises the same multiset of alerts |
| Scan.StrategyScan | app.py:127-158 | The analysis keys are exactly the watch and holding tickers with a positive price. Every alert names such a ticker |
| Scan.ScanOrderIndependent | app.py:130 | For one snapshot of the feed, whatever order the ticker set is enumerated in, the analysis is the same, and so is the multiset of alerts |
| BulkImport.TokensFrom | app.py:79 | Every token is non-empty and contains no comma or whitespace |
| BulkImport.TokensContent | app.py:79 | Concatenated, the tokens are exactly the non-separator characters of the stripped input |
| BulkImport.TokensOfJoin | app.py:79 | Comma-joined tokens are split back into the same tokens |
| BulkImport.StripKeepsUntagged | app.py:86 | A code without the letters s, h, z, k passes through the tag removal unchanged |
| BulkImport.CleanTagged | app.py:86 | A market tag, in either case, in front of a numeric code is removed |
| BulkImport.LookupValues | app.py:80-82 | Every lookup key maps to a listed code that the key equals or is the dot prefix of |
| BulkImport.LookupKeys | app.py:80-82 | Every listed code, and its dot prefix, is a lookup key |
| BulkImport.Resolve | app.py:86-87 | The raw token is tried first and the cleaned token second. A missing or empty result counts as false. A target is never empty |
| BulkImport.ResolveSound | app.py:87 | Whatever a token resolves to is a listed code |
| BulkImport.ResolveComplete | app.py:80-87 | A token that is a listed code, or the dot prefix of one, resolves |
| BulkImport.ApplyContents | app.py:83-87 | Setting each target in turn leaves a watch list holding the old codes and the targets, every target under the chosen strategy and every other code unchanged |
| BulkImport.ImportTokens | app.py:79-88 | Over the split tokens, empty tokens are skipped (`if not rc: continue`), the count is the number of non-empty tokens that resolve, and the watch list is the original with each resolved target set to the chosen strategy, in token order |
| BulkImport.Import | app.py:79-88 | The count equals the number of tokens that resolve. The watch list gains exactly the resolved targets, each set to the chosen strategy. Every other entry is unchanged |

## Left out

- The Streamlit UI, charts, toasts, session state, message texts and the sidebar's single add, holding edit and delete actions: presentation and user input only.
- HTTP requests, timeouts and the GBK/text decoding fallback: a quote response is a parameter, and a missing entry stands for a failed request.
- The Baostock login, query and result paging, and the `st.cache_*` caches: daily bars are a parameter keyed by history-source code.
- Converting the history service's text fields to floats: bars arrive as numbers. In the code, one unparsable field empties the whole history, because `astype(float)` raises into the blanket `except`. The open, high and low columns are not modelled: the code only stores the frame under "History" in the metrics record (data_service.py:157), and nothing shown reads it back.
- `datetime.now()`: the time of day is a parameter, in microseconds since midnight. Calendar days, weekends and holidays play no part in the code.
- Reading and writing `config.json`: the file's state is the `ConfigFile` parameter. Converting the JSON thresholds and entries into the typed `Thresholds`, `WatchEntry` and `HoldingEntry` is not modelled.
- The news fetch, its keyword filter, and the AI-adviser context and chat: external services.
- `float()` accepts only decimal literals here: an optional sign, digits, and an optional fraction. Exponents, `inf`/`nan`, surrounding whitespace and underscores are not modelled.
- Floating-point rounding: finite values are exact reals, and there is one zero, with no signed zero.
- `lower()` and `\s` are modelled for ASCII letters and Latin-1 whitespace only.
- `Metrics.CalculateAdvancedMetrics`: the blanket `except` that returns None is not modelled. Every error it could catch is already absorbed earlier: history failures become empty frames, and numpy division never raises. So the function is total, and the scan always stores a record.
- Multi-dot tickers: `convert_code` raises on them. The quote and history readers catch that and return zeros or nothing. `Utils.ConvertCode` itself requires at most one dot.
- `render_table` raises `KeyError` for a row whose code is not on the watch list. That arises only when the feed answers with a symbol that was not requested: a row whose line echoes a requested symbol is named for its ticker (`Quotes.BatchRowNamesTicker`, `Quotes.BatchRowsRequested`). The model does not carry the exception.
- The scan reads one snapshot of the outside world (`Scan.Feed`: quote responses, daily bars and the time of day) for all tickers. The code requests each ticker's quote again (data_service.py:198) and reads the clock again (data_service.py:119) inside the loop (app.py:133), so quotes and time can move between tickers; the order-independence lemmas hold for one snapshot only.

## Findings

| source | as written | input that shows it | evidently intended | confidence | as-written member | corrected member |
|---|---|---|---|---|---|---|
| app.py:234-239 | The holdings-tab status compares the profit with the target and limit even without a cost, using a profit of 0 | cost 0, loss limit 0, support 0, price 10: the status is "stop-loss sell", while the scan raises nothing | Take-profit and stop-loss apply only with a positive cost, as in the scan at app.py:157-158 | medium; not executed | Alerts.HoldingStatusAsWritten, Alerts.AsWrittenStopsOutWithoutCost | Alerts.HoldingStatus, Alerts.StatusIsFirstAlert |
| app.py:175 | The watch table's strategy column defaults to the bare wave emoji, which matches no strategy | a watch entry with no strategy key and an MA20 deviation of −20 (band threshold −5): the scan raises a band alert, the table shows no signal | The table uses the scan's default, the band strategy (app.py:144) | medium; not executed | Alerts.TableSignalAsWritten, Alerts.TableMissesStrategylessBand | Alerts.TableSignal, Alerts.TableAgreesWithScan |
