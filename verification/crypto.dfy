/**
 * `tickers/crypto.py`: the crypto price API offers candles by the minute,
 * hour or day only, so a request asks for the largest of those that fits
 * in the wanted interval, enough of them to cover the lookback (at most
 * 1440), and resamples the answer. The API and the resampling are
 * parameters; the model states what is asked of them and what is done
 * with their answers.
 */
module Crypto {
  import opened Common
  import opened Config
  import opened Frames
  import TickerBase

  /** `CRYPTO_MAX_LOOKBACK`: the API's limit on candles per request. */
  const MaxLimit: int := 1440

  /** The keys of `CRYPTO_INTERVAL_TIMEDELTAS`, in their order. */
  datatype Granularity = Minute | Hour | Day

  function GranularitySeconds(g: Granularity): (s: int)
    ensures s > 0
  {
    match g
    case Minute => 60
    case Hour => 3600
    case Day => 86400
  }

  const Granularities: seq<Granularity> := [Minute, Hour, Day]

  /**
   * The loop over the granularities: each one with
   * `max_timedelta <= timedelta <= interval_dt` replaces the choice so far.
   */
  function ChooseFrom(gs: seq<Granularity>, intervalSeconds: int, best: int, chosen: Granularity): Granularity
  {
    if |gs| == 0 then chosen
    else
      var s := GranularitySeconds(gs[0]);
      if best <= s <= intervalSeconds then ChooseFrom(gs[1..], intervalSeconds, s, gs[0])
      else ChooseFrom(gs[1..], intervalSeconds, best, chosen)
  }

  /** The granularity requested for an interval, starting from a zero maximum and "minute". */
  function Choose(intervalSeconds: int): Granularity
  {
    ChooseFrom(Granularities, intervalSeconds, 0, Minute)
  }

  /**
   * The chosen granularity is the largest one no longer than the interval;
   * below a minute nothing fits and "minute" is kept.
   */
  lemma ChooseIsLargestFitting(intervalSeconds: int)
    ensures var g := Choose(intervalSeconds);
            (intervalSeconds < 60 ==> g == Minute) &&
            (intervalSeconds >= 60 ==> GranularitySeconds(g) <= intervalSeconds) &&
            forall h: Granularity :: GranularitySeconds(h) <= intervalSeconds ==>
              GranularitySeconds(h) <= GranularitySeconds(g)
  {
    var g := Choose(intervalSeconds);
    var first := if 60 <= intervalSeconds then 60 else 0;
    assert Granularities[1..] == [Hour, Day];
    assert [Hour, Day][1..] == [Day];
    assert [Day][1..] == [];
    assert g == ChooseFrom([Hour, Day], intervalSeconds, first, Minute);
    if intervalSeconds < 3600 {
      assert g == ChooseFrom([Day], intervalSeconds, first, Minute);
      assert g == ChooseFrom([], intervalSeconds, first, Minute);
    } else if intervalSeconds < 86400 {
      assert g == ChooseFrom([Day], intervalSeconds, 3600, Hour);
      assert g == ChooseFrom([], intervalSeconds, 3600, Hour);
    } else {
      assert g == ChooseFrom([Day], intervalSeconds, 3600, Hour);
      assert g == ChooseFrom([], intervalSeconds, 86400, Day);
    }
  }

  /** `int(interval_dt / crypto_interval_dt)`: the quotient truncated towards zero. */
  function ScaleFactor(intervalSeconds: int, g: Granularity): (k: int)
    ensures intervalSeconds >= 0 ==>
              k >= 0 && k * GranularitySeconds(g) <= intervalSeconds < (k + 1) * GranularitySeconds(g)
    ensures intervalSeconds < 0 ==> k == -((-intervalSeconds) / GranularitySeconds(g))
  {
    var s := GranularitySeconds(g);
    if intervalSeconds >= 0 then intervalSeconds / s else -((-intervalSeconds) / s)
  }

  /** What is asked of the API: a granularity and a number of candles. */
  datatype Request = Request(granularity: Granularity, limit: int)

  /** `crypto_limit = min(lookback * scale_factor, CRYPTO_MAX_LOOKBACK)`. */
  function MakeRequest(intervalSeconds: int, lookback: int): (q: Request)
    ensures q.granularity == Choose(intervalSeconds)
    ensures q.limit <= MaxLimit
    ensures q.limit == MaxLimit || q.limit == lookback * ScaleFactor(intervalSeconds, q.granularity)
    ensures q.limit <= lookback * ScaleFactor(intervalSeconds, q.granularity)
  {
    var g := Choose(intervalSeconds);
    var wanted := lookback * ScaleFactor(intervalSeconds, g);
    Request(g, if wanted < MaxLimit then wanted else MaxLimit)
  }

  /** A daily ticker over 30 days asks for 30 daily candles; an hourly one over 2000 hours is capped at 1440. */
  lemma RequestExamples()
    ensures MakeRequest(86400, 30) == Request(Day, 30)
    ensures MakeRequest(3600, 2000) == Request(Hour, 1440)
    ensures MakeRequest(5 * 86400, 30) == Request(Day, 150)
  {
    ChooseIsLargestFitting(86400);
    ChooseIsLargestFitting(3600);
    ChooseIsLargestFitting(5 * 86400);
  }

  /** `len(index[::k])` for an index of `n` entries and a step `k` other than zero. */
  function StepLength(n: nat, k: int): (len: nat)
    requires k != 0
    ensures var a := if k > 0 then k else -k;
            (len - 1) * a < n <= len * a || (n == 0 && len == 0)
  {
    var a := if k > 0 then k else -k;
    (n + a - 1) / a
  }

  /**
   * Resampling the fetched rows to the interval and labelling the result
   * with every `k`-th timestamp of the fetched rows
   * (`historical.index = historical_index[::scale_factor]`): a zero step
   * raises `ValueError`, and so does a label count other than the
   * resampled row count.
   */
  function Relabel(fetched: seq<Row>, intervalSeconds: int, k: int,
                   resample: (seq<Row>, int) -> seq<Row>): (r: Result<seq<Row>>)
    ensures r.Ok? <==> k != 0 && |resample(fetched, intervalSeconds)| == StepLength(|fetched|, k)
    ensures r.Err? ==> r.error == ValueError
    ensures r.Ok? ==> r.value == resample(fetched, intervalSeconds)
  {
    if k == 0 then Err(ValueError)
    else
      var rows := resample(fetched, intervalSeconds);
      if |rows| != StepLength(|fetched|, k) then Err(ValueError) else Ok(rows)
  }

  /**
   * `get_cryptocompare`. `api` answers a request with candles; `resample`
   * aggregates candles into `intervalSeconds`-long ones. An empty answer
   * raises `ValueError`; resampling happens only when the granularity
   * differs from the interval, and then the relabelling can raise
   * `ValueError` too; at most `lookback` rows, the latest, are kept.
   */
  function GetCryptocompare(intervalSeconds: int, lookback: int,
                            api: Request -> seq<Row>,
                            resample: (seq<Row>, int) -> seq<Row>): (r: Result<seq<Row>>)
    ensures var q := MakeRequest(intervalSeconds, lookback);
            |api(q)| == 0 ==> r == Err(ValueError)
    ensures var q := MakeRequest(intervalSeconds, lookback);
            |api(q)| > 0 && GranularitySeconds(q.granularity) == intervalSeconds ==> r == Ok(Trim(api(q), lookback))
    ensures var q := MakeRequest(intervalSeconds, lookback);
            var k := ScaleFactor(intervalSeconds, q.granularity);
            |api(q)| > 0 && GranularitySeconds(q.granularity) != intervalSeconds ==>
              (r.Ok? <==> k != 0 && |resample(api(q), intervalSeconds)| == StepLength(|api(q)|, k)) &&
              (r.Ok? ==> r.value == Trim(resample(api(q), intervalSeconds), lookback))
    ensures r.Err? ==> r.error == ValueError
    ensures r.Ok? && lookback > 0 ==> |r.value| <= lookback
  {
    var q := MakeRequest(intervalSeconds, lookback);
    var fetched := api(q);
    if |fetched| == 0 then Err(ValueError)
    else
      var rows :- if GranularitySeconds(q.granularity) != intervalSeconds
                  then Relabel(fetched, intervalSeconds, ScaleFactor(intervalSeconds, q.granularity), resample)
                  else Ok(fetched);
      Ok(Trim(rows, lookback))
  }

  /**
   * A 90-minute ticker is served hourly candles with a scale of one, so
   * there are as many labels as candles fetched; a resampler that yields
   * fewer 90-minute rows than that makes the relabelling raise `ValueError`.
   */
  lemma NinetyMinutesNeedOneRowPerCandle(lookback: int, api: Request -> seq<Row>,
                                         resample: (seq<Row>, int) -> seq<Row>)
    requires var q := MakeRequest(5400, lookback);
             0 < |api(q)| && |resample(api(q), 5400)| < |api(q)|
    ensures GetCryptocompare(5400, lookback, api, resample) == Err(ValueError)
  {
    ChooseIsLargestFitting(5400);
    var q := MakeRequest(5400, lookback);
    assert q.granularity == Hour;
    assert ScaleFactor(5400, Hour) == 1;
  }

  /** Below one minute the scale is zero and any resampled answer fails. */
  lemma SubMinuteIntervalsFail(intervalSeconds: int, lookback: int, api: Request -> seq<Row>,
                               resample: (seq<Row>, int) -> seq<Row>)
    requires 0 < intervalSeconds < 60
    ensures GetCryptocompare(intervalSeconds, lookback, api, resample).Err?
  {
    ChooseIsLargestFitting(intervalSeconds);
  }

  /** A ticker on the API's own granularity never resamples, whatever `resample` does. */
  lemma NativeGranularityIgnoresResampling(g: Granularity, lookback: int, api: Request -> seq<Row>,
                                           resample1: (seq<Row>, int) -> seq<Row>,
                                           resample2: (seq<Row>, int) -> seq<Row>)
    ensures GetCryptocompare(GranularitySeconds(g), lookback, api, resample1) ==
            GetCryptocompare(GranularitySeconds(g), lookback, api, resample2)
  {
    ChooseIsLargestFitting(GranularitySeconds(g));
  }

  /** A `TickerCrypto`: the API key and the base ticker state. */
  datatype CryptoTicker = CryptoTicker(apiKey: string, base: TickerBase.Ticker)

  /**
   * `from_config`: a missing API key raises `ValueError` before the base
   * constructor can raise `KeyError` for an unknown interval.
   */
  function FromConfig(tt: TinytickerConfig, config: TickerConfig): (r: Result<CryptoTicker>)
    ensures tt.apiKey.None? ==> r == Err(ValueError)
    ensures tt.apiKey.Some? ==> (r.Err? <==> TickerBase.Init(config).Err?)
    ensures r.Ok? ==> Some(r.value.apiKey) == tt.apiKey && Ok(r.value.base) == TickerBase.Init(config)
  {
    if tt.apiKey.None? then Err(ValueError)
    else
      var base :- TickerBase.Init(config);
      Ok(CryptoTicker(tt.apiKey.value, base))
  }

  /** The price API's answer: absent, or prices by symbol and currency. */
  type PriceAnswer = Option<map<string, map<string, real>>>

  /**
   * The current price in `_single_tick`: none without an answer; otherwise
   * the symbol's price in US dollars, a missing entry raising `KeyError`.
   */
  function CurrentPrice(answer: PriceAnswer, symbol: string): (r: Result<Option<real>>)
    ensures answer.None? ==> r == Ok(None)
    ensures answer.Some? && r.Ok? ==>
              symbol in answer.value && "USD" in answer.value[symbol] && r.value == Some(answer.value[symbol]["USD"])
    ensures answer.Some? ==> (r.Err? <==> symbol !in answer.value || "USD" !in answer.value[symbol])
  {
    match answer
    case None => Ok(None)
    case Some(m) =>
      if symbol in m && "USD" in m[symbol] then Ok(Some(m[symbol]["USD"])) else Err(KeyError)
  }

  /**
   * `single_tick`: the history, then the price, which falls back to the
   * last close when the price API gave no answer.
   */
  function SingleTick(t: CryptoTicker, api: Request -> seq<Row>, resample: (seq<Row>, int) -> seq<Row>,
                      answer: PriceAnswer): (r: Result<TickerBase.Response>)
    ensures var h := GetCryptocompare(t.base.intervalSeconds, t.base.lookback, api, resample);
            h.Ok? && answer.None? && |h.value| > 0 ==>
              r.Ok? && r.value.historical == h.value && r.value.currentPrice == h.value[|h.value| - 1].close
    ensures var h := GetCryptocompare(t.base.intervalSeconds, t.base.lookback, api, resample);
            h.Ok? && answer.None? && |h.value| == 0 ==> r == Err(IndexError)
    ensures var h := GetCryptocompare(t.base.intervalSeconds, t.base.lookback, api, resample);
            h.Err? ==> r == Err(ValueError)
    ensures var h := GetCryptocompare(t.base.intervalSeconds, t.base.lookback, api, resample);
            var sym := t.base.config.symbol;
            h.Ok? && answer.Some? && sym in answer.value && "USD" in answer.value[sym] ==>
              r == Ok(TickerBase.Response(h.value, answer.value[sym]["USD"]))
    ensures var h := GetCryptocompare(t.base.intervalSeconds, t.base.lookback, api, resample);
            var sym := t.base.config.symbol;
            h.Ok? && answer.Some? && !(sym in answer.value && "USD" in answer.value[sym]) ==> r == Err(KeyError)
  {
    var historical :- GetCryptocompare(t.base.intervalSeconds, t.base.lookback, api, resample);
    var price :- CurrentPrice(answer, t.base.config.symbol);
    TickerBase.CurrentPriceFallback(historical, price)
  }

  /**
   * With an answered price the tick's price is the answer's, whatever the
   * history's last close: two histories that both fetch give the same price.
   */
  lemma AnsweredPriceWins(t: CryptoTicker, api1: Request -> seq<Row>, api2: Request -> seq<Row>,
                          resample: (seq<Row>, int) -> seq<Row>, answer: PriceAnswer)
    requires GetCryptocompare(t.base.intervalSeconds, t.base.lookback, api1, resample).Ok?
    requires GetCryptocompare(t.base.intervalSeconds, t.base.lookback, api2, resample).Ok?
    requires answer.Some?
    ensures SingleTick(t, api1, resample, answer).Ok? <==> SingleTick(t, api2, resample, answer).Ok?
    ensures SingleTick(t, api1, resample, answer).Ok? ==>
              SingleTick(t, api1, resample, answer).value.currentPrice == SingleTick(t, api2, resample, answer).value.currentPrice
  {
  }
}
