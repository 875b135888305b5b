/**
 * The batch runner for cash-secured puts: every row of the position sheet is
 * checked, looked up in the put chain fetched for it and turned into a record
 * of last-trade metrics. Incomplete rows are skipped silently, a row whose
 * strike is not in the chain is skipped with a warning, and a row that raises
 * is reported with its sheet row number; none of them stops the run.
 */
module PutBatch {
  import opened Market

  /** A cell of the position sheet: blank, present but unusable (the conversion raises), or a value. */
  datatype Field<T> = Missing | Malformed(reason: string) | Present(value: T)

  /** A parsed expiration: its `YYYY-MM-DD` label and the whole days from now until it. */
  datatype Expiry = Expiry(date: string, dte: int)

  /**
   * One row of the position sheet, with the outcome of fetching the spot price
   * and the put chain for it (consulted only when the row gets that far).
   */
  datatype InputRow = InputRow(ticker: Field<string>, strike: Field<real>, expiration: Field<Expiry>, market: Fetch<Snapshot>)

  /** One line of the result table. */
  datatype PutRecord = PutRecord(
    ticker: string,
    strike: real,
    expiration: string,
    stockPrice: real,
    premium: real,
    delta: real,                 // the implied volatility, reported as a stand-in for delta
    collateral: real,
    breakeven: real,
    downsidePct: real,
    annualizedReturn: real,
    weeklyReturnDollar: real,
    weeklyReturnPct: real,
    annualReturnDollar: real,
    annualReturnPct: real)

  /** How one row ends. */
  datatype RowOutcome =
    | Skipped                                                  // a required cell is blank
    | NoOption(ticker: string, strike: real, expiration: string) // no put at exactly that strike
    | Failed(reason: string)                                   // an exception was caught
    | Recorded(record: PutRecord)

  /** What the runner writes to the console for a row. */
  datatype Event =
    | Warned(ticker: string, strike: real, expiration: string)
    | Reported(displayRow: int, record: PutRecord)
    | Errored(displayRow: int, reason: string)

  /** ASCII upper-casing of a ticker symbol. */
  function Upper(s: string): (r: string)
    ensures |r| == |s|
    ensures forall i :: 0 <= i < |s| ==>
              r[i] == if 'a' <= s[i] <= 'z' then (s[i] as int - 32) as char else s[i]
  {
    if s == [] then []
    else [if 'a' <= s[0] <= 'z' then (s[0] as int - 32) as char else s[0]] + Upper(s[1..])
  }

  /**
   * Upper-casing an upper-cased ticker changes nothing: the tickers in the
   * result table are already in capitals, and upper-casing them again (as a
   * later run over an exported table would) passes them through unchanged.
   */
  lemma UpperIdempotent(s: string)
    ensures Upper(Upper(s)) == Upper(s)
  {
    var u := Upper(s);
    assert forall i :: 0 <= i < |u| ==> !('a' <= u[i] <= 'z');
  }

  /**
   * The metrics of a put sold at `strike`, premium taken from the last trade of
   * its chain row `q`, on an underlying last closed at `spot`.
   */
  function Metrics(ticker: string, strike: real, exp: Expiry, spot: real, q: Quote): (r: PutRecord)
    requires strike != 0.0 && spot != 0.0
    ensures r.ticker == ticker && r.strike == strike && r.expiration == exp.date && r.stockPrice == spot
    ensures r.premium == q.lastPrice && r.delta == q.impliedVolatility
    ensures r.breakeven + r.premium == strike
    ensures r.collateral == 100.0 * strike
    ensures r.downsidePct * spot == (spot - r.breakeven) * 100.0
    ensures r.weeklyReturnPct * strike == r.premium * 100.0
    ensures r.weeklyReturnDollar == r.premium * 100.0
    ensures r.annualReturnDollar == 52.0 * r.weeklyReturnDollar
    ensures r.annualReturnPct == 52.0 * r.weeklyReturnPct
    ensures exp.dte <= 0 ==> r.annualizedReturn == 0.0
    ensures exp.dte > 0 ==> r.annualizedReturn * (exp.dte as real) == 365.0 * r.weeklyReturnPct
  {
    var premium := q.lastPrice;
    var breakeven := strike - premium;
    var downside := ((spot - breakeven) / spot) * 100.0;
    var annualized := if exp.dte > 0 then (premium / strike) * (365.0 / exp.dte as real) * 100.0 else 0.0;
    var weeklyPct := (premium / strike) * 100.0;
    PutRecord(ticker, strike, exp.date, spot, premium, q.impliedVolatility, strike * 100.0, breakeven,
              downside, annualized, premium * 100.0, weeklyPct, premium * 52.0 * 100.0, weeklyPct * 52.0)
  }

  /** Days to expiration feed the calendar-aware annualized return and nothing else. */
  lemma OnlyAnnualizedDependsOnDte(ticker: string, strike: real, date: string, d1: int, d2: int, spot: real, q: Quote)
    requires strike != 0.0 && spot != 0.0
    ensures Metrics(ticker, strike, Expiry(date, d1), spot, q).(annualizedReturn := 0.0) ==
            Metrics(ticker, strike, Expiry(date, d2), spot, q).(annualizedReturn := 0.0)
  {
  }

  /**
   * The calendar-aware annualized return and the naive 52-week figure never
   * agree for a live option with a nonzero premium: 365 days is not a whole
   * multiple of 52.
   */
  lemma {:induction false} AnnualizedDiffersFromNaive(ticker: string, strike: real, exp: Expiry, spot: real, q: Quote)
    requires strike != 0.0 && spot != 0.0
    requires exp.dte > 0 && q.lastPrice != 0.0
    ensures Metrics(ticker, strike, exp, spot, q).annualizedReturn != Metrics(ticker, strike, exp, spot, q).annualReturnPct
  {
    var r := Metrics(ticker, strike, exp, spot, q);
    var d := exp.dte as real;
    if exp.dte <= 7 {
      assert 52.0 * d <= 364.0;
    } else {
      assert 52.0 * d >= 416.0;
    }
    assert r.weeklyReturnPct != 0.0;
    assert r.annualReturnPct * d == 52.0 * d * r.weeklyReturnPct;
    assert r.annualizedReturn * d == 365.0 * r.weeklyReturnPct;
  }

  /** Spot 100, strike 95, last trade 2.00, thirty days out. */
  lemma WorkedExample()
    ensures var r := Metrics("XYZ", 95.0, Expiry("2025-01-31", 30), 100.0, Quote(95.0, 1.9, 2.1, 2.0, 0.25));
            r.breakeven == 93.0 && r.downsidePct == 7.0 && r.collateral == 9500.0 &&
            r.annualizedReturn == 1460.0 / 57.0
  {
  }

  /**
   * The row's divisors are nonzero: the spot price of its snapshot and its own
   * strike, which is also the strike of any put it is matched with.
   */
  predicate RowNondegenerate(row: InputRow)
  {
    row.market.Ok? && row.strike.Present? ==> row.market.value.spot != 0.0 && row.strike.value != 0.0
  }

  predicate AllNondegenerate(rows: seq<InputRow>)
  {
    forall i :: 0 <= i < |rows| ==> RowNondegenerate(rows[i])
  }

  /** A required cell of the row is blank. */
  predicate Incomplete(row: InputRow)
  {
    row.ticker.Missing? || row.strike.Missing? || row.expiration.Missing?
  }

  /**
   * One pass of the loop body: the blank check, the ticker, strike and
   * expiration conversions in that order, the fetch, the exact-strike lookup in
   * the put chain, and the metrics of the first matching put.
   */
  function ProcessRow(row: InputRow): (o: RowOutcome)
    requires RowNondegenerate(row)
    ensures o.Skipped? <==> Incomplete(row)
    ensures o.Failed? <==>
              !Incomplete(row) &&
              (row.ticker.Malformed? || row.strike.Malformed? || row.expiration.Malformed? || row.market.Fail?)
    ensures o.NoOption? <==>
              row.ticker.Present? && row.strike.Present? && row.expiration.Present? && row.market.Ok? &&
              FindStrike(row.market.value.chain, row.strike.value).None?
    ensures o.Failed? ==>
              o.reason == if row.ticker.Malformed? then row.ticker.reason
                          else if row.strike.Malformed? then row.strike.reason
                          else if row.expiration.Malformed? then row.expiration.reason
                          else row.market.msg
    ensures o.NoOption? ==>
              o.ticker == Upper(row.ticker.value) && o.strike == row.strike.value &&
              o.expiration == row.expiration.value.date
    ensures o.Recorded? ==>
              var chain := row.market.value.chain;
              var i := FindStrike(chain, row.strike.value).value;
              o.record == Metrics(Upper(row.ticker.value), row.strike.value, row.expiration.value,
                                  row.market.value.spot, chain[i])
  {
    if Incomplete(row) then Skipped
    else if row.ticker.Malformed? then Failed(row.ticker.reason)
    else if row.strike.Malformed? then Failed(row.strike.reason)
    else if row.expiration.Malformed? then Failed(row.expiration.reason)
    else
      var ticker, strike, exp := Upper(row.ticker.value), row.strike.value, row.expiration.value;
      match row.market
      case Fail(msg) => Failed(msg)
      case Ok(snapshot) =>
        match FindStrike(snapshot.chain, strike)
        case None => NoOption(ticker, strike, exp.date)
        case Some(i) => Recorded(Metrics(ticker, strike, exp, snapshot.spot, snapshot.chain[i]))
  }

  /** The record a row contributes to the result table: one if it succeeded, none otherwise. */
  function RecordOf(o: RowOutcome): (r: seq<PutRecord>)
    ensures |r| <= 1 && (r != [] <==> o.Recorded?)
  {
    if o.Recorded? then [o.record] else []
  }

  /** What the runner prints for the row at position idx; sheet rows are numbered from 2. */
  function EventsOf(idx: nat, o: RowOutcome): seq<Event>
  {
    match o
    case Skipped => []
    case NoOption(t, k, x) => [Warned(t, k, x)]
    case Failed(m) => [Errored(idx + 2, m)]
    case Recorded(rec) => [Reported(idx + 2, rec)]
  }

  /** The result table after the given rows: the successful records, in row order. */
  function Results(rows: seq<InputRow>): seq<PutRecord>
    requires AllNondegenerate(rows)
  {
    if rows == [] then []
    else Results(rows[..|rows| - 1]) + RecordOf(ProcessRow(rows[|rows| - 1]))
  }

  /** The console log after the given rows. */
  function Log(rows: seq<InputRow>): seq<Event>
    requires AllNondegenerate(rows)
  {
    if rows == [] then []
    else Log(rows[..|rows| - 1]) + EventsOf(|rows| - 1, ProcessRow(rows[|rows| - 1]))
  }

  /**
   * The loop over the sheet. It returns the result table, the console log, and
   * whether a result file is written (only when the table is not empty).
   */
  method Run(rows: seq<InputRow>) returns (results: seq<PutRecord>, log: seq<Event>, exported: bool)
    requires AllNondegenerate(rows)
    ensures results == Results(rows)
    ensures log == Log(rows)
    ensures exported <==> results != []
  {
    results, log := [], [];
    for idx := 0 to |rows|
      invariant results == Results(rows[..idx])
      invariant log == Log(rows[..idx])
    {
      assert rows[..idx + 1][..idx] == rows[..idx];
      var outcome := ProcessRow(rows[idx]);
      match outcome {
        case Skipped =>
        case NoOption(t, k, x) =>
          log := log + [Warned(t, k, x)];
        case Failed(m) =>
          log := log + [Errored(idx + 2, m)];
        case Recorded(rec) =>
          log := log + [Reported(idx + 2, rec)];
          results := results + [rec];
      }
    }
    assert rows[..|rows|] == rows;
    exported := results != [];
  }

  /** Counts of the four ways a row can end. */
  datatype Tally = Tally(skipped: nat, noOption: nat, failed: nat, recorded: nat)

  function Count(rows: seq<InputRow>): Tally
    requires AllNondegenerate(rows)
  {
    if rows == [] then Tally(0, 0, 0, 0)
    else
      var t := Count(rows[..|rows| - 1]);
      match ProcessRow(rows[|rows| - 1])
      case Skipped => t.(skipped := t.skipped + 1)
      case NoOption(_, _, _) => t.(noOption := t.noOption + 1)
      case Failed(_) => t.(failed := t.failed + 1)
      case Recorded(_) => t.(recorded := t.recorded + 1)
  }

  /**
   * Every row ends exactly one way; the table holds one record per successful
   * row, the log one event per row that was not skipped. So the table is never
   * longer than the number of complete rows, and a row that is not found is
   * neither in the table nor among the errors.
   */
  lemma {:induction false} CountsAddUp(rows: seq<InputRow>)
    requires AllNondegenerate(rows)
    ensures var t := Count(rows);
            t.skipped + t.noOption + t.failed + t.recorded == |rows| &&
            |Results(rows)| == t.recorded &&
            |Log(rows)| == |rows| - t.skipped &&
            |Results(rows)| <= |rows| - t.skipped
  {
    if rows != [] {
      CountsAddUp(rows[..|rows| - 1]);
    }
  }

  /** Running over two sheets back to back gives the two tables back to back. */
  lemma {:induction false} ResultsAppend(a: seq<InputRow>, b: seq<InputRow>)
    requires AllNondegenerate(a) && AllNondegenerate(b)
    ensures AllNondegenerate(a + b)
    ensures Results(a + b) == Results(a) + Results(b)
  {
    if b == [] {
      assert a + b == a;
    } else {
      var b' := b[..|b| - 1];
      assert (a + b)[..|a + b| - 1] == a + b';
      ResultsAppend(a, b');
    }
  }

  /**
   * Row isolation: whatever a row does, the rows before and after it contribute
   * the same records, and the row itself contributes at most its own record.
   */
  lemma RowIsolation(before: seq<InputRow>, row: InputRow, after: seq<InputRow>)
    requires AllNondegenerate(before) && RowNondegenerate(row) && AllNondegenerate(after)
    ensures AllNondegenerate(before + [row] + after)
    ensures Results(before + [row] + after) == Results(before) + RecordOf(ProcessRow(row)) + Results(after)
  {
    ResultsAppend(before, [row]);
    assert [row][..0] == [];
    ResultsAppend(before + [row], after);
  }

  /** A skipped, failed or not-found row leaves the table as if it were not in the sheet. */
  lemma UnrecordedRowInvisible(before: seq<InputRow>, row: InputRow, after: seq<InputRow>)
    requires AllNondegenerate(before) && RowNondegenerate(row) && AllNondegenerate(after)
    requires !ProcessRow(row).Recorded?
    ensures AllNondegenerate(before + [row] + after) && AllNondegenerate(before + after)
    ensures Results(before + [row] + after) == Results(before + after)
  {
    RowIsolation(before, row, after);
    ResultsAppend(before, after);
  }

  /** A record is in the table exactly when some row of the sheet produced it. */
  lemma {:induction false} ResultsAreRecordedRows(rows: seq<InputRow>, rec: PutRecord)
    requires AllNondegenerate(rows)
    ensures rec in Results(rows) <==> exists i :: 0 <= i < |rows| && ProcessRow(rows[i]) == Recorded(rec)
  {
    if rows != [] {
      var init := rows[..|rows| - 1];
      ResultsAreRecordedRows(init, rec);
      assert forall i :: 0 <= i < |init| ==> init[i] == rows[i];
    }
  }

  /**
   * Errors are reported with the sheet row number: an error line for display
   * row d is in the log exactly when the row at position d - 2 raised with
   * that reason.
   */
  lemma {:induction false} ErrorsCarryRowNumber(rows: seq<InputRow>, d: int, reason: string)
    requires AllNondegenerate(rows)
    ensures Errored(d, reason) in Log(rows) <==> 2 <= d < |rows| + 2 && ProcessRow(rows[d - 2]) == Failed(reason)
  {
    if rows != [] {
      var init := rows[..|rows| - 1];
      ErrorsCarryRowNumber(init, d, reason);
      if 2 <= d < |init| + 2 {
        assert init[d - 2] == rows[d - 2];
      }
    }
  }

  /**
   * Successes are reported with the sheet row number: a report for display row
   * d is in the log exactly when the row at position d - 2 produced that record.
   */
  lemma {:induction false} ReportsCarryRowNumber(rows: seq<InputRow>, d: int, rec: PutRecord)
    requires AllNondegenerate(rows)
    ensures Reported(d, rec) in Log(rows) <==> 2 <= d < |rows| + 2 && ProcessRow(rows[d - 2]) == Recorded(rec)
  {
    if rows != [] {
      var init := rows[..|rows| - 1];
      ReportsCarryRowNumber(init, d, rec);
      if 2 <= d < |init| + 2 {
        assert init[d - 2] == rows[d - 2];
      }
    }
  }

  /** A warning is in the log exactly when some row's strike was missing from its put chain. */
  lemma {:induction false} WarningsAreMissingStrikes(rows: seq<InputRow>, t: string, k: real, x: string)
    requires AllNondegenerate(rows)
    ensures Warned(t, k, x) in Log(rows) <==> exists i :: 0 <= i < |rows| && ProcessRow(rows[i]) == NoOption(t, k, x)
  {
    if rows != [] {
      var init := rows[..|rows| - 1];
      WarningsAreMissingStrikes(init, t, k, x);
      assert forall i :: 0 <= i < |init| ==> init[i] == rows[i];
    }
  }

  /** A row with a blank required cell leaves no trace: no record and no console line. */
  lemma {:induction false} SkippedRowsLeaveNoTrace(rows: seq<InputRow>, row: InputRow)
    requires AllNondegenerate(rows) && RowNondegenerate(row) && Incomplete(row)
    ensures AllNondegenerate(rows + [row])
    ensures Results(rows + [row]) == Results(rows) && Log(rows + [row]) == Log(rows)
  {
    assert (rows + [row])[..|rows|] == rows;
  }
}
