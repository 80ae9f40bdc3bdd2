/** The fixed catalog of instruments the server simulates and accepts
    subscriptions for. */
module Catalog {

  type Ticker = string

  /** The supported stocks, in the order the simulator visits them. */
  const SupportedStocks: seq<Ticker> := ["GOOG", "TSLA", "AMZN", "META", "NVDA"]

  /** The tickers listed in `s`, as a set. */
  function Listed(s: seq<Ticker>): set<Ticker> {
    set t | t in s
  }

  /** No ticker is listed twice in `s`. */
  predicate Distinct(s: seq<Ticker>) {
    forall i, j :: 0 <= i < j < |s| ==> s[i] != s[j]
  }

  /** No ticker is listed twice, so a loop over the catalog visits each stock once. */
  lemma CatalogDistinct()
    ensures Distinct(SupportedStocks)
  {
  }
}
