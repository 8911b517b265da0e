/**
 * `rpi_ticker_epaper/ticker.py`, the earlier Raspberry Pi project: a
 * CryptoCompare poller with three candle intervals, each with a default
 * number of candles and a default pause between requests. The library is
 * represented by the names of its functions and by the answer of the
 * chosen one; the pause itself is not modelled.
 */
module RpiTicker {
  import opened Common

  /** `INTERVAL_LOOKBACKS`: candles requested per interval. */
  const IntervalLookbacks: map<string, int> := map["day" := 15, "hour" := 12, "minute" := 30]
  /** `INTERVAL_WAIT_TIMES`: seconds between requests per interval. */
  const IntervalWaitTimes: map<string, int> := map["day" := 86400, "hour" := 3600, "minute" := 60]

  /** The intervals the tables know. */
  predicate KnownInterval(interval: string)
  {
    interval == "day" || interval == "hour" || interval == "minute"
  }

  /** Both tables cover exactly the three intervals. */
  lemma TablesAgree(interval: string)
    ensures interval in IntervalLookbacks <==> KnownInterval(interval)
    ensures interval in IntervalWaitTimes <==> KnownInterval(interval)
  {
  }

  datatype Ticker = Ticker(apiKey: string, coin: string, currency: string, interval: string, lookBack: int, waitTime: int)

  /** The library function `get_api_method` looks up for an interval. */
  function ApiName(interval: string): string
  {
    "get_historical_price_" + interval
  }

  /**
   * `Ticker.__init__`: `library` is the set of names the `cryptocompare`
   * module defines. The lookup of the request function comes before the
   * interval check, so an interval without a library function raises
   * `AttributeError`, and one with a function but no table entry raises
   * `ValueError`. An omitted `look_back` or `wait_time` takes the
   * interval's default; a given one is kept as is.
   */
  function Init(library: set<string>, apiKey: string, coin: string, currency: string, interval: string,
                lookBack: Option<int>, waitTime: Option<int>): (r: Result<Ticker>)
    ensures ApiName(interval) !in library ==> r == Err(AttributeError)
    ensures ApiName(interval) in library && !KnownInterval(interval) ==> r == Err(ValueError)
    ensures r.Ok? <==> ApiName(interval) in library && KnownInterval(interval)
    ensures r.Ok? ==> r.value.apiKey == apiKey && r.value.coin == coin && r.value.currency == currency && r.value.interval == interval
    ensures r.Ok? && lookBack.Some? ==> r.value.lookBack == lookBack.value
    ensures r.Ok? && lookBack.None? ==> r.value.lookBack == (if interval == "day" then 15 else if interval == "hour" then 12 else 30)
    ensures r.Ok? && waitTime.Some? ==> r.value.waitTime == waitTime.value
    ensures r.Ok? && waitTime.None? ==> r.value.waitTime == (if interval == "day" then 86400 else if interval == "hour" then 3600 else 60)
  {
    if ApiName(interval) !in library then Err(AttributeError)
    else if interval !in IntervalLookbacks then Err(ValueError)
    else
      var lb := if lookBack.Some? then lookBack.value else IntervalLookbacks[interval];
      var wt := if waitTime.Some? then waitTime.value else IntervalWaitTimes[interval];
      Ok(Ticker(apiKey, coin, currency, interval, lb, wt))
  }

  /** With the library's three candle functions present, construction fails exactly for an unknown interval, with `ValueError`. */
  lemma KnownIntervalsOnly(library: set<string>, apiKey: string, coin: string, currency: string, interval: string,
                           lookBack: Option<int>, waitTime: Option<int>)
    requires ApiName("day") in library && ApiName("hour") in library && ApiName("minute") in library
    ensures Init(library, apiKey, coin, currency, interval, lookBack, waitTime).Ok? <==> KnownInterval(interval)
    ensures ApiName(interval) in library && !KnownInterval(interval) ==>
              Init(library, apiKey, coin, currency, interval, lookBack, waitTime) == Err(ValueError)
  {
  }

  /** The constructor's defaults: BTC in USD, hourly, 12 candles, an hour apart. */
  lemma Defaults(library: set<string>, apiKey: string)
    requires ApiName("hour") in library
    ensures Init(library, apiKey, "BTC", "USD", "hour", None, None) == Ok(Ticker(apiKey, "BTC", "USD", "hour", 12, 3600))
  {
  }

  /** One request: coin, currency, the time of the request and the `limit`. */
  datatype Request = Request(coin: string, currency: string, toTs: int, limit: int)

  /**
   * The request `tick` sends at time `now`: the API counts the candle at
   * `toTs` as well as `limit` earlier ones, so `limit` is one less than
   * the ticker's look-back.
   */
  function TickRequest(t: Ticker, now: int): (q: Request)
    ensures q.coin == t.coin && q.currency == t.currency && q.toTs == now
    ensures q.limit + 1 == t.lookBack
  {
    Request(t.coin, t.currency, now, t.lookBack - 1)
  }

  /** A ticker built without a look-back asks for exactly its interval's default number of candles. */
  lemma DefaultRequestCoversLookback(library: set<string>, apiKey: string, coin: string, currency: string,
                                     interval: string, waitTime: Option<int>, now: int)
    requires Init(library, apiKey, coin, currency, interval, None, waitTime).Ok?
    ensures var t := Init(library, apiKey, coin, currency, interval, None, waitTime).value;
            interval in IntervalLookbacks && TickRequest(t, now).limit + 1 == IntervalLookbacks[interval]
  {
  }

  /**
   * One step of `tick`: `api` answers the request with a response or
   * raises, and a raised exception becomes `None`.
   */
  function Tick<R>(t: Ticker, now: int, api: Request -> Result<R>): (r: Option<R>)
    ensures var q := TickRequest(t, now);
            (r.None? <==> api(q).Err?) && (r.Some? ==> r.value == api(q).value)
  {
    match api(TickRequest(t, now))
    case Ok(v) => Some(v)
    case Err(_) => None
  }

  /**
   * The first `|times|` values `tick` yields, `times` being the clock
   * readings of successive requests (the pause between them is not
   * modelled). A failed request yields `None` and the stream goes on: every
   * request gets exactly one answer, and the failures are exactly the
   * requests the API refused.
   */
  method TickStream<R>(t: Ticker, times: seq<int>, api: Request -> Result<R>) returns (rs: seq<Option<R>>)
    ensures |rs| == |times|
    ensures forall k :: 0 <= k < |rs| ==> (rs[k].None? <==> api(TickRequest(t, times[k])).Err?)
    ensures forall k :: 0 <= k < |rs| && rs[k].Some? ==> rs[k].value == api(TickRequest(t, times[k])).value
  {
    rs := [];
    var k := 0;
    while k < |times|
      invariant 0 <= k <= |times| && |rs| == k
      invariant forall j :: 0 <= j < k ==> rs[j] == Tick(t, times[j], api)
    {
      rs := rs + [Tick(t, times[k], api)];
      k := k + 1;
    }
  }
}
