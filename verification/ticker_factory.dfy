/**
 * `tickers/__init__.py`: the `Ticker` factory picks the ticker class by the
 * configured symbol type and builds it with that class's `from_config`.
 */
module TickerFactory {
  import opened Common
  import opened Config
  import TickerBase
  import Crypto

  /** `SYMBOL_TYPES`, the keys of the class table in their order. */
  const SymbolTypes: seq<string> := ["crypto", "stock"]

  /** The ticker classes of the table. */
  datatype TickerClass = CryptoClass | StockClass

  /** `_get_ticker_class_from_symbol_type`: a dict lookup, `KeyError` when absent. */
  function ClassOf(symbolType: string): (r: Result<TickerClass>)
    ensures r.Err? <==> symbolType !in SymbolTypes
    ensures r.Err? ==> r.error == KeyError
    ensures r == Ok(CryptoClass) <==> symbolType == SymbolTypes[0]
    ensures r == Ok(StockClass) <==> symbolType == SymbolTypes[1]
  {
    if symbolType == "crypto" then Ok(CryptoClass)
    else if symbolType == "stock" then Ok(StockClass)
    else Err(KeyError)
  }

  /** A built ticker of either class. */
  datatype AnyTicker = CryptoTicker(crypto: Crypto.CryptoTicker) | StockTicker(stock: TickerBase.Ticker)

  /**
   * `Ticker.__new__`: the class's `from_config` with both configurations.
   * `TickerStock.from_config` only runs the base constructor (its calls to
   * the stock price library are not modelled).
   */
  function New(tt: TinytickerConfig, config: TickerConfig): (r: Result<AnyTicker>)
    ensures ClassOf(config.symbolType).Err? ==> r == Err(KeyError)
    ensures ClassOf(config.symbolType) == Ok(CryptoClass) ==>
              (r.Ok? <==> Crypto.FromConfig(tt, config).Ok?) &&
              (r.Ok? ==> r.value == CryptoTicker(Crypto.FromConfig(tt, config).value))
    ensures ClassOf(config.symbolType) == Ok(StockClass) ==>
              (r.Ok? <==> TickerBase.Init(config).Ok?) &&
              (r.Ok? ==> r.value == StockTicker(TickerBase.Init(config).value))
  {
    var cls :- ClassOf(config.symbolType);
    match cls
    case CryptoClass =>
      var t :- Crypto.FromConfig(tt, config);
      Ok(CryptoTicker(t))
    case StockClass =>
      var t :- TickerBase.Init(config);
      Ok(StockTicker(t))
  }

  /**
   * Which error a configuration gets: an unknown symbol type is a
   * `KeyError`; a crypto ticker without an API key is a `ValueError`, even
   * with an unknown interval; otherwise an unknown interval is a `KeyError`.
   */
  lemma NewErrors(tt: TinytickerConfig, config: TickerConfig)
    ensures config.symbolType !in SymbolTypes ==> New(tt, config) == Err(KeyError)
    ensures config.symbolType == "crypto" && tt.apiKey.None? ==> New(tt, config) == Err(ValueError)
    ensures config.symbolType in SymbolTypes && !(config.symbolType == "crypto" && tt.apiKey.None?) ==>
              (New(tt, config).Err? <==> config.interval !in TickerBase.Intervals) &&
              (New(tt, config).Err? ==> New(tt, config).error == KeyError)
    ensures New(tt, config).Ok? ==> config.symbolType in SymbolTypes && config.interval in TickerBase.Intervals
  {
  }

  /** The default configuration builds a stock ticker for SPY over 30 daily candles. */
  lemma DefaultBuildsStock()
    ensures New(DefaultConfig, DefaultTicker).Ok?
    ensures New(DefaultConfig, DefaultTicker).value.StockTicker?
    ensures New(DefaultConfig, DefaultTicker).value.stock.lookback == 30
    ensures New(DefaultConfig, DefaultTicker).value.stock.intervalSeconds == 86400
  {
  }
}
