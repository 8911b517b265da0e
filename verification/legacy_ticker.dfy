/**
 * `ticker.py`: the older single-class ticker and its sequence. It keeps
 * its own interval tables (with "3mo" and with other default lookbacks
 * for "2m" and "15m"), validates its arguments with `ValueError`, and
 * computes the same crypto request and stock window as the newer ticker
 * classes, but does not check for an empty crypto answer.
 */
module LegacyTicker {
  import Text
  import opened Common
  import opened Frames
  import TickerBase
  import Crypto
  import TickerSequence

  const SymbolTypes: seq<string> := ["crypto", "stock"]

  /** The keys of this file's `INTERVAL_TIMEDELTAS`. */
  const Intervals: seq<string> :=
    ["1m", "2m", "5m", "15m", "30m", "1h", "90m", "1d", "5d", "1wk", "1mo", "3mo"]

  /** `INTERVAL_TIMEDELTAS` in seconds: as in the newer table, plus "3mo" as ninety days. */
  function IntervalSeconds(interval: string): Option<int>
  {
    if interval == "3mo" then Some(90 * 86400) else TickerBase.IntervalSeconds(interval)
  }

  /** `INTERVAL_LOOKBACKS`: as in the newer table except "2m" (15) and "15m" (16). */
  function DefaultLookback(interval: string): Option<int>
  {
    if interval == "2m" then Some(15)
    else if interval == "15m" then Some(16)
    else TickerBase.DefaultLookback(interval)
  }

  /**
   * Every listed interval has a positive duration and a default lookback;
   * the two tables differ from the newer ones only in "3mo", "2m" and "15m".
   */
  lemma TablesComparedToNewer(interval: string)
    ensures IntervalSeconds(interval).Some? <==> interval in Intervals
    ensures IntervalSeconds(interval).Some? ==> IntervalSeconds(interval).value > 0 && DefaultLookback(interval).Some?
    ensures interval != "3mo" ==> IntervalSeconds(interval) == TickerBase.IntervalSeconds(interval)
    ensures interval != "2m" && interval != "15m" ==> DefaultLookback(interval) == TickerBase.DefaultLookback(interval)
    ensures DefaultLookback("2m") == Some(15) && TickerBase.DefaultLookback("2m") == Some(30)
    ensures DefaultLookback("15m") == Some(16) && TickerBase.DefaultLookback("15m") == Some(32)
  {
    TickerBase.IntervalTable(interval);
  }

  /** The attributes `Ticker.__init__` sets. */
  datatype Ticker = Ticker(
    apiKey: Option<string>,
    symbolType: string,
    symbol: string,
    interval: string,
    intervalSeconds: int,
    lookback: int,
    waitTime: int)

  /**
   * `Ticker.__init__`: `ValueError` for an unknown symbol type, then for an
   * unknown interval, then for a crypto ticker without an API key. The
   * lookback defaults from the table and the wait time to the interval's
   * length in seconds. (The check for a not-a-time duration can never fire
   * on this table and is not modelled.)
   */
  function Init(apiKey: Option<string>, symbolType: string, symbol: string, interval: string,
                lookback: Option<int>, waitTime: Option<int>): (r: Result<Ticker>)
    ensures r.Err? ==> r.error == ValueError
    ensures r.Err? <==> symbolType !in SymbolTypes || interval !in Intervals ||
                        (symbolType == "crypto" && apiKey.None?)
    ensures r.Ok? ==> r.value.symbolType == symbolType && r.value.symbol == symbol &&
                      r.value.interval == interval && r.value.apiKey == apiKey
    ensures r.Ok? ==> Some(r.value.intervalSeconds) == IntervalSeconds(interval)
    ensures r.Ok? ==> Some(r.value.lookback) == if lookback.Some? then lookback else DefaultLookback(interval)
    ensures r.Ok? ==> r.value.waitTime == if waitTime.Some? then waitTime.value else r.value.intervalSeconds
  {
    TablesComparedToNewer(interval);
    if symbolType != "crypto" && symbolType != "stock" then Err(ValueError)
    else if IntervalSeconds(interval).None? then Err(ValueError)
    else if symbolType == "crypto" && apiKey.None? then Err(ValueError)
    else
      var secs := IntervalSeconds(interval).value;
      Ok(Ticker(apiKey, symbolType, symbol, interval, secs,
                if lookback.Some? then lookback.value else DefaultLookback(interval).value,
                if waitTime.Some? then waitTime.value else secs))
  }

  /** The keyword defaults build a daily BTC ticker, which needs an API key: 30 candles, a day's wait. */
  lemma DefaultArguments(key: string)
    ensures Init(None, "crypto", "BTC", "1d", None, None) == Err(ValueError)
    ensures Init(Some(key), "crypto", "BTC", "1d", None, None) ==
            Ok(Ticker(Some(key), "crypto", "BTC", "1d", 86400, 30, 86400))
  {
    TablesComparedToNewer("1d");
  }

  /** `__str__`: tab-joined like the newer ticker, but the wait time, always set here, has no unit. */
  function Describe(t: Ticker): (s: string)
    ensures '\t' !in t.symbolType && '\t' !in t.symbol && '\t' !in t.interval ==>
              Text.Split(s, '\t') ==
                ["Ticker", t.symbolType, t.symbol, Text.IntToString(t.lookback) + "x" + t.interval,
                 Text.IntToString(t.waitTime)]
  {
    var f := ["Ticker", t.symbolType, t.symbol, Text.IntToString(t.lookback) + "x" + t.interval,
              Text.IntToString(t.waitTime)];
    var noTabs := '\t' !in t.symbolType && '\t' !in t.symbol && '\t' !in t.interval;
    assert noTabs ==> Text.Split(Text.Join(f, '\t'), '\t') == f by {
      if noTabs {
        var i := Text.IntToString(t.lookback);
        assert forall c :: c in f[3] ==> c in i || c == 'x' || c in t.interval;
        assert forall k :: 0 <= k < 5 ==> '\t' !in f[k];
        Text.SplitJoin(f, '\t');
      }
    }
    Text.Join(f, '\t')
  }

  /**
   * This file's `get_cryptocompare`: the same request and relabelling as
   * the newer one, but with no emptiness check: an empty answer has no
   * "time" column, so indexing by it raises `KeyError`.
   */
  function GetCryptocompare(intervalSeconds: int, lookback: int,
                            api: Crypto.Request -> seq<Row>,
                            resample: (seq<Row>, int) -> seq<Row>): (r: Result<seq<Row>>)
    ensures var q := Crypto.MakeRequest(intervalSeconds, lookback);
            var newer := Crypto.GetCryptocompare(intervalSeconds, lookback, api, resample);
            (|api(q)| > 0 ==> r == newer) && (|api(q)| == 0 ==> r == Err(KeyError))
  {
    var q := Crypto.MakeRequest(intervalSeconds, lookback);
    var fetched := api(q);
    if |fetched| == 0 then Err(KeyError)
    else
      var rows :- if Crypto.GranularitySeconds(q.granularity) != intervalSeconds
                  then Crypto.Relabel(fetched, intervalSeconds, Crypto.ScaleFactor(intervalSeconds, q.granularity), resample)
                  else Ok(fetched);
      Ok(Trim(rows, lookback))
  }

  /** `_tick_crypto`: the history, then the current price with the last-close fallback. */
  function TickCrypto(t: Ticker, api: Crypto.Request -> seq<Row>, resample: (seq<Row>, int) -> seq<Row>,
                      answer: Crypto.PriceAnswer): (r: Result<TickerBase.Response>)
    ensures var h := GetCryptocompare(t.intervalSeconds, t.lookback, api, resample);
            (h.Err? ==> r == Err(h.error)) &&
            (h.Ok? && answer.None? ==> r == TickerBase.CurrentPriceFallback(h.value, None)) &&
            (h.Ok? && answer.Some? ==>
               r == if t.symbol in answer.value && "USD" in answer.value[t.symbol]
                    then Ok(TickerBase.Response(h.value, answer.value[t.symbol]["USD"]))
                    else Err(KeyError))
    ensures r.Ok? && answer.Some? ==>
              t.symbol in answer.value && "USD" in answer.value[t.symbol] &&
              r.value.currentPrice == answer.value[t.symbol]["USD"]
  {
    var historical :- GetCryptocompare(t.intervalSeconds, t.lookback, api, resample);
    var price :- Crypto.CurrentPrice(answer, t.symbol);
    TickerBase.CurrentPriceFallback(historical, price)
  }

  /**
   * `_tick_stock`, given the two downloads: the last two minutes at
   * one-minute resolution, and the history over the query window (as
   * `Stock.WindowAsWritten` computes it; this file's copy of that code is
   * the same). An empty history raises `ValueError`; the price is the last
   * one-minute close when there is one, else the last close of the trimmed
   * history.
   */
  function TickStock(t: Ticker, minutes: seq<Row>, historical: seq<Row>): (r: Result<TickerBase.Response>)
    ensures |historical| == 0 ==> r == Err(ValueError)
    ensures r.Ok? ==> r.value.historical == Trim(historical, t.lookback)
    ensures r.Ok? && |minutes| > 0 ==> r.value.currentPrice == minutes[|minutes| - 1].close
    ensures |historical| > 0 && t.lookback >= 0 && |minutes| == 0 ==>
              r.Ok? && r.value.currentPrice == historical[|historical| - 1].close
    ensures |historical| > 0 && |minutes| > 0 ==> r.Ok?
  {
    if |historical| == 0 then Err(ValueError)
    else
      var price := if |minutes| > 0 then Some(minutes[|minutes| - 1].close) else None;
      TickerBase.CurrentPriceFallback(Trim(historical, t.lookback), price)
  }

  /** `Sequence.__init__` in this file: an empty ticker list raises `ValueError` as well. */
  function NewSequence(count: nat, skipEmpty: bool, skipOutdated: bool): (r: Result<TickerSequence.SeqState>)
    ensures r.Err? <==> count == 0
    ensures r == TickerSequence.NewSequence(count, skipEmpty, skipOutdated)
  {
    if count == 0 then Err(ValueError)
    else Ok(TickerSequence.SeqState(count, skipEmpty, skipOutdated, None, false, None))
  }

  /** One pass of this file's `start`: every ticker from `i` on is fetched, in order; there is no skip request. */
  function PassFrom(i: nat, verdicts: seq<TickerSequence.Verdict>): (r: (seq<nat>, seq<nat>, bool))
    decreases |verdicts| - i
  {
    if i >= |verdicts| then ([], [], false)
    else
      match verdicts[i]
      case Crash => ([i], [], true)
      case Pass =>
        var rest := PassFrom(i + 1, verdicts);
        ([i] + rest.0, rest.1, rest.2)
      case Show =>
        var rest := PassFrom(i + 1, verdicts);
        ([i] + rest.0, [i] + rest.1, rest.2)
  }

  /**
   * The older pass fetches, shows and crashes exactly as the newer one does
   * when no skip is pending, so it shows the tickers round-robin as well.
   */
  lemma {:induction false} PassMatchesNewer(s: TickerSequence.SeqState, i: nat, verdicts: seq<TickerSequence.Verdict>)
    requires |verdicts| == s.count && !s.skipping
    ensures var newer := TickerSequence.PassFrom(s, i, verdicts);
            PassFrom(i, verdicts) == (newer.fetched, newer.shown, newer.crashed)
    decreases s.count - i
  {
    if i < s.count {
      var s1 := s.(skipping := false, currentIndex := Some(i));
      if verdicts[i] != TickerSequence.Crash {
        PassMatchesNewer(s1, i + 1, verdicts);
      }
    }
  }
}
