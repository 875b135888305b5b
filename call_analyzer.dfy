/**
 * The computation inside the interactive call analyzer's Analyze action: select
 * the call at the requested strike, derive its mid-price metrics, and build the
 * ROI-versus-strike series drawn from the whole call chain.
 */
module CallAnalyzer {
  import opened Market

  /** The figures the analyzer shows for the selected call. */
  datatype CallMetrics = CallMetrics(
    stockPrice: real,
    premium: real,
    breakeven: real,
    delta: real,           // the implied volatility, shown as a stand-in for delta
    percentReturn: real,
    annualReturn: real)

  /** One point of the ROI chart: a chain row's strike and its return in percent. */
  datatype RoiPoint = RoiPoint(strike: real, roi: real)

  /** What one Analyze action ends with: an error dialog of some kind, or the figures and the chart. */
  datatype Analysis =
    | MissingDependency            // the market-data library could not be imported
    | InvalidInput                 // the strike entry is not a number
    | DataError(msg: string)       // fetching the price or the chain raised
    | NotFound                     // no call at exactly that strike
    | Shown(metrics: CallMetrics, curve: seq<RoiPoint>)

  /**
   * The metrics of a call sold at `strike` whose chain row is `q`: the premium
   * is the bid/ask midpoint, the return is the premium as a percentage of the
   * contract's notional, annualised by 52 weekly rolls.
   */
  function Metrics(strike: real, spot: real, q: Quote): (m: CallMetrics)
    requires strike != 0.0
    ensures m.stockPrice == spot && m.delta == q.impliedVolatility
    ensures 2.0 * m.premium == q.bid + q.ask
    ensures q.bid <= q.ask ==> q.bid <= m.premium <= q.ask
    ensures m.breakeven - m.premium == strike
    ensures m.percentReturn * strike == m.premium
    ensures m.annualReturn == 52.0 * m.percentReturn
  {
    var premium := (q.bid + q.ask) / 2.0;
    var percentReturn := (premium / (strike * 100.0)) * 100.0;
    CallMetrics(spot, premium, strike + premium, q.impliedVolatility, percentReturn, percentReturn * 52.0)
  }

  /** Return in percent of one chain row priced at its midpoint. */
  function Roi(q: Quote): real
    requires q.strike != 0.0
  {
    ((q.bid + q.ask) / 2.0) / (q.strike * 100.0) * 100.0
  }

  /** The ROI column computed over the whole chain, one point per row, in chain order. */
  function RoiCurve(chain: seq<Quote>): (r: seq<RoiPoint>)
    requires NonzeroStrikes(chain)
    ensures |r| == |chain|
    ensures forall i :: 0 <= i < |chain| ==> r[i].strike == chain[i].strike && r[i].roi == Roi(chain[i])
  {
    if chain == [] then []
    else [RoiPoint(chain[0].strike, Roi(chain[0]))] + RoiCurve(chain[1..])
  }

  /**
   * One Analyze action. The library check comes first, then the strike entry is
   * parsed (`strikeEntry` is None when that fails), then price and chain are
   * fetched, then the call at exactly that strike is looked up.
   */
  function Analyze(libraryAvailable: bool, strikeEntry: Option<real>, fetched: Fetch<Snapshot>): (a: Analysis)
    requires fetched.Ok? ==> NonzeroStrikes(fetched.value.chain)
    ensures !libraryAvailable <==> a.MissingDependency?
    ensures a.InvalidInput? <==> libraryAvailable && strikeEntry.None?
    ensures a.DataError? <==> libraryAvailable && strikeEntry.Some? && fetched.Fail?
    ensures a.DataError? ==> a.msg == fetched.msg
    ensures a.NotFound? <==>
              libraryAvailable && strikeEntry.Some? && fetched.Ok? &&
              forall j :: 0 <= j < |fetched.value.chain| ==> fetched.value.chain[j].strike != strikeEntry.value
    ensures a.Shown? ==>
              exists i :: 0 <= i < |fetched.value.chain| && Selects(fetched.value.chain, strikeEntry.value, i) &&
                          a.metrics == Metrics(strikeEntry.value, fetched.value.spot, fetched.value.chain[i])
    ensures a.Shown? ==> a.curve == RoiCurve(fetched.value.chain)
  {
    if !libraryAvailable then MissingDependency
    else match strikeEntry
      case None => InvalidInput
      case Some(strike) =>
        match fetched
        case Fail(msg) => DataError(msg)
        case Ok(snapshot) =>
          match FindStrike(snapshot.chain, strike)
          case None => NotFound
          case Some(i) =>
            Shown(Metrics(strike, snapshot.spot, snapshot.chain[i]), RoiCurve(snapshot.chain))
  }

  /** Row i is the first row of the chain at exactly strike k. */
  ghost predicate Selects(chain: seq<Quote>, k: real, i: nat)
  {
    i < |chain| && chain[i].strike == k && forall j :: 0 <= j < i ==> chain[j].strike != k
  }

  /** The chart's point at the selected strike is the same return the text report shows. */
  lemma RoiAtSelectedStrike(libraryAvailable: bool, strikeEntry: Option<real>, fetched: Fetch<Snapshot>)
    requires fetched.Ok? ==> NonzeroStrikes(fetched.value.chain)
    requires Analyze(libraryAvailable, strikeEntry, fetched).Shown?
    ensures var a := Analyze(libraryAvailable, strikeEntry, fetched);
            exists i :: 0 <= i < |a.curve| && a.curve[i].strike == strikeEntry.value &&
                        a.curve[i].roi == a.metrics.percentReturn
  {
    var a := Analyze(libraryAvailable, strikeEntry, fetched);
    var chain := fetched.value.chain;
    var i := FindStrike(chain, strikeEntry.value).value;
    assert a.metrics == Metrics(strikeEntry.value, fetched.value.spot, chain[i]);
    assert a.curve[i].roi == Roi(chain[i]);
    assert Roi(chain[i]) == Metrics(chain[i].strike, fetched.value.spot, chain[i]).percentReturn;
  }

  /** A call quoted 1.00 bid, 1.20 ask at strike 50. */
  lemma WorkedExample()
    ensures var m := Metrics(50.0, 48.0, Quote(50.0, 1.0, 1.2, 1.05, 0.3));
            m.premium == 1.1 && m.breakeven == 51.1 && m.percentReturn == 0.022 && m.annualReturn == 1.144
  {
  }
}
