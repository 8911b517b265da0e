/**
 * `tickers/_base.py`: the interval tables, what a ticker derives from its
 * configuration when it is built, the memoised logo, the fallback to the
 * last close price, and the one-line description of a ticker.
 */
module TickerBase {
  import Text
  import opened Common
  import opened Config
  import opened Frames

  /** `INTERVALS`: the intervals a ticker accepts, shortest first. */
  const Intervals: seq<string> :=
    ["1m", "2m", "5m", "15m", "30m", "1h", "90m", "1d", "5d", "1wk", "1mo"]

  /**
   * `INTERVAL_TIMEDELTAS`, in seconds: the literal duration of each interval,
   * except that "1wk" is seven days and "1mo" is thirty.
   */
  function IntervalSeconds(interval: string): Option<int>
  {
    if interval == "1m" then Some(60)
    else if interval == "2m" then Some(120)
    else if interval == "5m" then Some(300)
    else if interval == "15m" then Some(900)
    else if interval == "30m" then Some(1800)
    else if interval == "1h" then Some(3600)
    else if interval == "90m" then Some(5400)
    else if interval == "1d" then Some(86400)
    else if interval == "5d" then Some(5 * 86400)
    else if interval == "1wk" then Some(7 * 86400)
    else if interval == "1mo" then Some(30 * 86400)
    else None
  }

  /** `INTERVAL_LOOKBACKS`: the default number of intervals shown; it also knows "3mo". */
  function DefaultLookback(interval: string): Option<int>
  {
    if interval == "1m" then Some(20)
    else if interval == "2m" then Some(30)
    else if interval == "5m" then Some(24)
    else if interval == "15m" then Some(32)
    else if interval == "30m" then Some(24)
    else if interval == "1h" then Some(24)
    else if interval == "90m" then Some(24)
    else if interval == "1d" then Some(30)
    else if interval == "5d" then Some(30)
    else if interval == "1wk" then Some(26)
    else if interval == "1mo" then Some(24)
    else if interval == "3mo" then Some(24)
    else None
  }

  /** An interval has a duration exactly when it is listed, and every duration is positive. */
  lemma IntervalTable(interval: string)
    ensures IntervalSeconds(interval).Some? <==> interval in Intervals
    ensures IntervalSeconds(interval).Some? ==> IntervalSeconds(interval).value > 0
    ensures IntervalSeconds(interval).Some? ==> DefaultLookback(interval).Some?
  {
  }

  /** "3mo" has a default lookback but no duration. */
  lemma QuarterHasNoDuration()
    ensures DefaultLookback("3mo") == Some(24)
    ensures IntervalSeconds("3mo").None?
  {
  }

  /** The logo slot: not fetched yet, or what `_get_logo` returned (an image or `False`). */
  datatype Logo = Image(id: int) | NoLogo

  /** The state a `TickerBase` keeps. */
  datatype Ticker = Ticker(config: TickerConfig, intervalSeconds: int, lookback: int, logo: Option<Logo>)

  /**
   * `TickerBase.__init__`: looking up the interval's duration raises
   * `KeyError` for an unlisted interval, before the lookback is chosen;
   * the lookback is the configured one, else the interval's default.
   */
  function Init(config: TickerConfig): (r: Result<Ticker>)
    ensures r.Err? <==> config.interval !in Intervals
    ensures r.Err? ==> r.error == KeyError
    ensures r.Ok? ==> r.value.config == config && r.value.logo.None?
    ensures r.Ok? ==> Some(r.value.intervalSeconds) == IntervalSeconds(config.interval)
    ensures r.Ok? && config.lookback.Some? ==> r.value.lookback == config.lookback.value
    ensures r.Ok? && config.lookback.None? ==> Some(r.value.lookback) == DefaultLookback(config.interval)
  {
    IntervalTable(config.interval);
    match IntervalSeconds(config.interval)
    case None => Err(KeyError)
    case Some(secs) =>
      var lookback := if config.lookback.Some? then config.lookback.value
                      else DefaultLookback(config.interval).value;
      Ok(Ticker(config, secs, lookback, None))
  }

  /** A "3mo" ticker cannot be built, whatever its lookback. */
  lemma QuarterlyTickerFails(config: TickerConfig)
    requires config.interval == "3mo"
    ensures Init(config) == Err(KeyError)
  {
    QuarterHasNoDuration();
  }

  /**
   * The `logo` property. `fetched` is what `_get_logo` would return if
   * called now (`None` for the base class's own stub); the result is the
   * new state, the logo returned, and whether `_get_logo` was called.
   */
  function GetLogo(t: Ticker, fetched: Option<Logo>): (r: (Ticker, Option<Logo>, bool))
    ensures r.2 <==> t.logo.None?
    ensures r.0.config == t.config && r.0.lookback == t.lookback && r.0.intervalSeconds == t.intervalSeconds
    ensures r.1 == r.0.logo
    ensures t.logo.Some? ==> r.0 == t
    ensures t.logo.None? ==> r.1 == fetched
  {
    if t.logo.None? then (t.(logo := fetched), fetched, true) else (t, t.logo, false)
  }

  /**
   * Once a logo (an image or `False`) has been obtained, later accesses
   * never fetch again and return the same value, whatever a fetch would give.
   */
  lemma LogoFetchedAtMostOnce(t: Ticker, first: Option<Logo>, second: Option<Logo>)
    requires first.Some?
    ensures var (t1, l1, _) := GetLogo(t, first);
            var (t2, l2, called) := GetLogo(t1, second);
            !called && t2 == t1 && l2 == l1
  {
  }

  /** The base class's stub returns `None`, so every access fetches again. */
  lemma StubLogoRefetches(t: Ticker)
    requires t.logo.None?
    ensures GetLogo(GetLogo(t, None).0, None).2
  {
  }

  /** `TickerResponse`: the history and the price shown. */
  datatype Response = Response(historical: seq<Row>, currentPrice: real)

  /**
   * `_current_price_fallback`: the fetched price when there is one,
   * otherwise the last close, which raises `IndexError` on an empty history.
   */
  function CurrentPriceFallback(historical: seq<Row>, price: Option<real>): (r: Result<Response>)
    ensures r.Err? <==> price.None? && |historical| == 0
    ensures r.Err? ==> r.error == IndexError
    ensures r.Ok? ==> r.value.historical == historical
    ensures r.Ok? && price.Some? ==> r.value.currentPrice == price.value
    ensures r.Ok? && price.None? ==> r.value.currentPrice == historical[|historical| - 1].close
  {
    if price.Some? then Ok(Response(historical, price.value))
    else
      var close :- LastClose(historical);
      Ok(Response(historical, close))
  }

  /** `f"{x}"` of an optional integer. */
  function OptIntToString(v: Option<int>): (s: string)
    ensures '\t' !in s
  {
    match v
    case None => "None"
    case Some(i) => Text.IntToString(i)
  }

  /** The tab-separated fields of `__str__`. */
  function Fields(t: Ticker): seq<string>
  {
    ["Ticker", t.config.symbolType, t.config.symbol,
     Text.IntToString(t.lookback) + "x" + t.config.interval,
     OptIntToString(t.config.waitTime) + "s"]
  }

  /** `__str__`: the fields joined by tabs; an unset wait time reads "Nones". */
  function Describe(t: Ticker): string
  {
    Text.Join(Fields(t), '\t')
  }

  /**
   * Splitting the description on tabs gives back the symbol type, the
   * symbol, "<lookback>x<interval>" and "<wait_time>s", provided the
   * configured strings hold no tab.
   */
  lemma DescribeSplits(t: Ticker)
    requires '\t' !in t.config.symbolType && '\t' !in t.config.symbol && '\t' !in t.config.interval
    ensures var f := Text.Split(Describe(t), '\t');
            |f| == 5 && f[0] == "Ticker" && f[1] == t.config.symbolType && f[2] == t.config.symbol &&
            f[3] == Text.IntToString(t.lookback) + "x" + t.config.interval &&
            f[4] == OptIntToString(t.config.waitTime) + "s"
  {
    var f := Fields(t);
    var i := Text.IntToString(t.lookback);
    assert forall c :: c in f[3] ==> c in i || c == 'x' || c in t.config.interval;
    assert forall k :: 0 <= k < 5 ==> '\t' !in f[k];
    Text.SplitJoin(f, '\t');
  }

  /** An unset wait time is described as "Nones". */
  lemma UnsetWaitTimeReadsNones(t: Ticker)
    requires t.config.waitTime.None?
    ensures Fields(t)[4] == "Nones"
  {
  }
}
