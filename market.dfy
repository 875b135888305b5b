/**
 * Market data as the metrics engine sees it: one row of an option chain, the
 * snapshot a quote lookup returns (spot price and the chain of one side for one
 * expiration), the outcome of that lookup, and the exact-strike selection that
 * both the interactive call analyzer and the put batch runner perform.
 */
module Market {

  datatype Option<T> = None | Some(value: T)

  /** Outcome of a market-data fetch: the snapshot, or the message of the exception it raised. */
  datatype Fetch<T> = Ok(value: T) | Fail(msg: string)

  /** One row of an option chain (one strike of one side for one expiration). */
  datatype Quote = Quote(strike: real, bid: real, ask: real, lastPrice: real, impliedVolatility: real)

  /** The last close of the underlying, and the chain of the side the caller asked for. */
  datatype Snapshot = Snapshot(spot: real, chain: seq<Quote>)

  /** No chain row has strike 0, so every per-row return ratio is defined. */
  predicate NonzeroStrikes(chain: seq<Quote>)
  {
    forall i :: 0 <= i < |chain| ==> chain[i].strike != 0.0
  }

  /**
   * The rows of the chain whose strike equals k exactly: the boolean-mask
   * filter `chain[chain['strike'] == k]`. MatchingAppend states that it keeps
   * chain order.
   */
  function Matching(chain: seq<Quote>, k: real): (r: seq<Quote>)
    ensures |r| <= |chain|
    ensures forall j :: 0 <= j < |r| ==> r[j].strike == k && r[j] in chain
    ensures forall j :: 0 <= j < |chain| && chain[j].strike == k ==> chain[j] in r
  {
    if chain == [] then []
    else if chain[0].strike == k then [chain[0]] + Matching(chain[1..], k)
    else Matching(chain[1..], k)
  }

  /**
   * Filtering a chain in two pieces gives the two filtered pieces back to
   * back; with the membership clauses of Matching (which fix the filter of a
   * one-row chain) this says the filter keeps exactly the matching rows in
   * chain order.
   */
  lemma {:induction false} MatchingAppend(a: seq<Quote>, b: seq<Quote>, k: real)
    ensures Matching(a + b, k) == Matching(a, k) + Matching(b, k)
  {
    if a != [] {
      assert (a + b)[1..] == a[1..] + b;
      MatchingAppend(a[1..], b, k);
    } else {
      assert a + b == b;
    }
  }

  /**
   * The index of the first chain row whose strike equals k exactly, or None
   * when there is none. There is no nearest-strike fallback.
   */
  function FindStrike(chain: seq<Quote>, k: real): (r: Option<nat>)
    ensures r.Some? ==> r.value < |chain| && chain[r.value].strike == k
    ensures r.Some? ==> forall j :: 0 <= j < r.value ==> chain[j].strike != k
    ensures r.None? <==> forall j :: 0 <= j < |chain| ==> chain[j].strike != k
  {
    if chain == [] then None
    else if chain[0].strike == k then Some(0)
    else match FindStrike(chain[1..], k)
      case None => None
      case Some(i) => Some(i + 1)
  }

  /**
   * The search agrees with filter-then-first: it finds nothing exactly when the
   * filter is empty, and otherwise it selects the filter's first row.
   */
  lemma {:induction false} FindStrikeIsFirstOfMatching(chain: seq<Quote>, k: real)
    ensures FindStrike(chain, k).None? <==> Matching(chain, k) == []
    ensures FindStrike(chain, k).Some? ==>
              Matching(chain, k) != [] && chain[FindStrike(chain, k).value] == Matching(chain, k)[0]
  {
    if chain != [] && chain[0].strike != k {
      FindStrikeIsFirstOfMatching(chain[1..], k);
    }
  }
}
