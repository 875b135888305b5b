# Option-selling metrics engine

A verified model of the computational core of two small option-selling tools:

- the interactive **call analyzer** (`option_gui.py`). Its Analyze action selects the call quoted at exactly the requested strike. It then reports a mid-price premium, the breakeven, an implied-volatility stand-in for delta, a weekly percent return and that return times 52, and draws the ROI of every strike of the chain;
- the **put batch runner** (`option_process.py`). It walks the rows of a position sheet. Per row it fetches the spot price and the put chain, selects the put at exactly the row's strike and records last-trade metrics: collateral, breakeven, downside cushion, a calendar-aware annualized return and the naive weekly/52-week figures. Incomplete rows are skipped, rows with no put at that strike are skipped with a warning, and a row that raises is reported with its sheet row number. None of these stops the run.

Modules:

- `Market` (`market.dfy`): chain rows (`Quote`), the market snapshot (spot price and the chain of one side), the outcome of a fetch (`Ok | Fail`), and the exact-strike selection both tools share. It relates `FindStrike` to a filter-then-first reference (`Matching`).
- `CallAnalyzer` (`call_analyzer.dfy`): the call metrics, the ROI curve and the whole Analyze decision (missing library, bad strike entry, fetch failure, strike not found, or the figures and the chart).
- `PutBatch` (`put_batch.dfy`): the put metrics, the per-row outcome, the batch loop `Run` proved against the specification functions `Results` and `Log`, and lemmas about those functions. The lemmas cover row isolation, order, counts, the row numbers of errors and of success reports, warnings logged exactly for missing strikes, and skipped rows leaving no trace. The console event of a single row is defined by `EventsOf`.

Market data is an input. For the call analyzer it is one `Fetch<Snapshot>`. For the batch it is carried by each `InputRow`, and the model consults it only once a row gets past its cell conversions. The clock enters only as the integer days-to-expiration of each parsed expiration. The console output of the batch is modelled as a log of `Event`s (warning, report, error). Export of the table is the flag `exported`, which is true exactly when the table is not empty.

Three facts about the batch runner shape the model:

- A row whose strike is not in the chain is not an error. It prints a warning without a row number (option_process.py:31-33), so skipped + not-found + failed + recorded = rows (`CountsAddUp`).
- The runner keeps no count of processed, skipped and failed rows. `Count` exists only in the model, to state `CountsAddUp`.
- A malformed ticker, strike or expiration cell raises inside the row's `try` and is reported like a fetch error (option_process.py:19-22, 82-83). There is no separate validation step.

## Model

| member | source | states |
|---|---|---|
| Market.Matching | option_gui.py:64 | The boolean-mask filter: every selected row has exactly the requested strike, every such chain row is selected, and the filter is no longer than the chain. |
| Market.MatchingAppend | option_gui.py:64 | Filtering a chain split in two gives the two filtered parts back to back, so the filter keeps the matching rows in chain order. |
| Market.FindStrike | option_gui.py:64-69 | The selected index holds exactly the requested strike and no earlier row does; None exactly when no row has that strike (no nearest-strike fallback). |
| Market.FindStrikeIsFirstOfMatching | option_process.py:29-35 | The search finds nothing exactly when the filter is empty, and otherwise selects the filter's first row (`.iloc[0]` / `.values[0]`). |
| CallAnalyzer.Metrics | option_gui.py:70-74 | Premium is the bid/ask midpoint (between bid and ask when bid ≤ ask); breakeven − premium = strike; percent return × strike = premium; annual return = 52 × percent return; delta is the row's implied volatility unchanged; stock price passed through. |
| CallAnalyzer.RoiCurve | option_gui.py:88 | One point per chain row, in chain order, each carrying its own strike and its own midpoint ROI. |
| CallAnalyzer.Analyze | option_gui.py:42-74 | Missing library, non-numeric strike, fetch failure (with its message) and strike not found each end the action without figures, in that order of precedence; otherwise the figures are those of the first row at exactly the strike and the chart is the ROI curve of the whole chain. |
| CallAnalyzer.RoiAtSelectedStrike | option_gui.py:73-88 | The chart's point at the selected strike equals the percent return of the text report. |
| CallAnalyzer.WorkedExample | option_gui.py:70-74 | Bid 1.00, ask 1.20, strike 50 give premium 1.10, breakeven 51.10, return 0.022 % and annual 1.144 %. |
| PutBatch.Upper | option_process.py:19 | Upper-casing keeps the length and maps each lower-case ASCII letter to its capital, every other character unchanged. |
| PutBatch.UpperIdempotent | option_process.py:19 | Upper-casing an upper-cased ticker changes nothing. |
| PutBatch.Metrics | option_process.py:35-47 | Premium is the last trade; breakeven + premium = strike; collateral = 100 × strike; downside × spot = (spot − breakeven) × 100; weekly % × strike = premium × 100; weekly $ = 100 × premium; annual $ = 52 × weekly $; annual % = 52 × weekly %; annualized = 0 when dte ≤ 0, else annualized × dte = 365 × weekly %. |
| PutBatch.OnlyAnnualizedDependsOnDte | option_process.py:41-47 | Changing days to expiration changes no field of the record but the annualized return, so the weekly and 52-week figures are independent of it. |
| PutBatch.AnnualizedDiffersFromNaive | option_process.py:42-47 | For a live option with a nonzero premium the calendar-aware annualized return never equals the naive 52-week percent. |
| PutBatch.WorkedExample | option_process.py:39-43 | Spot 100, strike 95, premium 2, 30 days give breakeven 93, downside 7 %, collateral 9500 and annualized 1460/57 ≈ 25.6 %. |
| PutBatch.ProcessRow | option_process.py:15-47 | A row is skipped exactly when a required cell is blank; it fails exactly when it is complete and a conversion or the fetch raised, with the message of the first step that raised (ticker, strike, expiration, fetch); it is not found exactly when the put chain lacks the strike, and the warning carries the upper-cased ticker, the strike and the expiration date; otherwise its record is the put metrics of the first matching put, with the ticker upper-cased. |
| PutBatch.RecordOf | option_process.py:65-80 | A row adds one record to the table exactly when it succeeded, none otherwise. |
| PutBatch.Run | option_process.py:13-86 | The loop returns exactly the specified result table and console log, and a result file is written exactly when the table is not empty. |
| PutBatch.CountsAddUp | option_process.py:13-83 | Each row ends exactly one way; the table has one record per successful row and so is no longer than the number of complete rows; the log has one event per non-skipped row. |
| PutBatch.ResultsAppend | option_process.py:13-65 | Two sheets processed back to back give their two tables back to back, so records keep input order. |
| PutBatch.RowIsolation | option_process.py:13-83 | Whatever one row does, the rows before and after it contribute the same records, and it contributes at most its own. |
| PutBatch.UnrecordedRowInvisible | option_process.py:15-83 | A skipped, failed or not-found row leaves the table exactly as if it were absent from the sheet. |
| PutBatch.ResultsAreRecordedRows | option_process.py:65-80 | A record is in the table exactly when some row of the sheet produced it. |
| PutBatch.ErrorsCarryRowNumber | option_process.py:82-83 | An error line for display row d is logged exactly when the row at position d − 2 raised with that reason. |
| PutBatch.ReportsCarryRowNumber | option_process.py:50-62 | A report for display row d is logged exactly when the row at position d − 2 produced that record. |
| PutBatch.WarningsAreMissingStrikes | option_process.py:31-33 | A warning is logged exactly when some row's strike was missing from its put chain, with that row's ticker, strike and expiration. |
| PutBatch.SkippedRowsLeaveNoTrace | option_process.py:15-16 | A row with a blank required cell adds no record and no console line. |

## Left out

- The tkinter form, the text report and the matplotlib chart are presentation only and are not modelled (option_gui.py:11-41, 76-95). Analyze ends with the values shown, not with widget state.
- The market-data library is a foreign network client. `yf.Ticker`, `history` and `option_chain` are replaced by a `Fetch` outcome. An empty price history, which raises, is a `Fail` like any other fetch error.
- The library import check survives only as the `libraryAvailable` flag of `CallAnalyzer.Analyze`.
- Spreadsheet I/O is file I/O and is not modelled: reading the sheet, writing the result file and its timestamped name. What remains is whether export happens.
- Date parsing and formatting, and `datetime.today()`, are not modelled. A parsed expiration is its `YYYY-MM-DD` string and an integer day count; a cell that does not parse is `Malformed`.
- Number parsing is not modelled. The strike entry of the call analyzer is given as already parsed (`None` when `float()` raises), and a strike cell of the sheet is `Present` or `Malformed`.
- Which cell contents count as blank (`pd.isna`) is not modelled; such a cell is given as `Missing`.
- IEEE floating point is not modelled: arithmetic is over `real`. NaN propagation, rounding, `nan`/`inf` strike entries and the `:.2f` display rounding are therefore outside the model.
- Division by zero is excluded by preconditions. The code never checks strike or spot price, and NumPy division by zero yields inf/NaN rather than raising. The call analyzer requires every strike of its chain to be nonzero, because the ROI curve divides by each of them (`Market.NonzeroStrikes`). The batch requires, for each row that has a strike and a snapshot, a nonzero spot price and a nonzero strike (`PutBatch.RowNondegenerate`).
- PutBatch.Upper: models only ASCII case mapping, because Python's Unicode `upper()` (which can change a string's length) has no counterpart here. The call analyzer's `strip().upper()` of the ticker only feeds the fetch, which is an input, so it is not modelled.
- Exceptions raised inside the console formatting of a successful row are not modelled. The report and the append are treated as one step that cannot fail.
