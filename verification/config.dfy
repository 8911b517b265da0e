/**
 * `config.py`: the ticker and display configuration records, their
 * defaults, and their conversion to and from the JSON object stored in the
 * config file. JSON text itself is not modelled: a JSON document is the
 * value `json.loads` would return for it.
 */
module Config {
  import opened Common

  /** `PLOT_TYPES`. */
  const PlotTypes: seq<string> := ["candlestick", "line", "ohlc"]

  /** `TickerConfig`. */
  datatype TickerConfig = TickerConfig(
    symbolType: string,
    symbol: string,
    interval: string,
    lookback: Option<int>,
    waitTime: Option<int>,
    plotType: string,
    mav: Option<int>)

  /** `TickerConfig()`. */
  const DefaultTicker: TickerConfig :=
    TickerConfig("stock", "SPY", "1d", None, None, "candlestick", None)

  /** `TinytickerConfig`. */
  datatype TinytickerConfig = TinytickerConfig(
    tickers: seq<TickerConfig>,
    epdModel: string,
    apiKey: Option<string>,
    flip: bool)

  /** `TinytickerConfig()`: one default ticker on the "EPD_v3" display. */
  const DefaultConfig: TinytickerConfig := TinytickerConfig([DefaultTicker], "EPD_v3", None, false)

  /** A decoded JSON value. */
  datatype Json =
    | JNull
    | JBool(b: bool)
    | JInt(i: int)
    | JStr(s: string)
    | JArr(items: seq<Json>)
    | JObj(fields: map<string, Json>)

  const TickerKeys: set<string> :=
    {"symbol_type", "symbol", "interval", "lookback", "wait_time", "plot_type", "mav"}
  const ConfigKeys: set<string> := {"tickers", "epd_model", "api_key", "flip"}

  function OptIntJson(v: Option<int>): Json
  {
    match v
    case None => JNull
    case Some(i) => JInt(i)
  }

  function OptStrJson(v: Option<string>): Json
  {
    match v
    case None => JNull
    case Some(s) => JStr(s)
  }

  /** `dataclasses.asdict` of a ticker: one entry per field. */
  function TickerToDict(t: TickerConfig): (j: Json)
    ensures j.JObj? && j.fields.Keys == TickerKeys
  {
    JObj(map[
      "symbol_type" := JStr(t.symbolType),
      "symbol" := JStr(t.symbol),
      "interval" := JStr(t.interval),
      "lookback" := OptIntJson(t.lookback),
      "wait_time" := OptIntJson(t.waitTime),
      "plot_type" := JStr(t.plotType),
      "mav" := OptIntJson(t.mav)])
  }

  /** `to_dict`: one entry per field, the tickers as a list of their dicts. */
  function ToDict(c: TinytickerConfig): (j: Json)
    ensures j.JObj? && j.fields.Keys == ConfigKeys
    ensures j.fields["tickers"].JArr? && |j.fields["tickers"].items| == |c.tickers|
    ensures forall i :: 0 <= i < |c.tickers| ==>
              j.fields["tickers"].items[i] == TickerToDict(c.tickers[i])
  {
    JObj(map[
      "tickers" := JArr(seq(|c.tickers|, i requires 0 <= i < |c.tickers| => TickerToDict(c.tickers[i]))),
      "epd_model" := JStr(c.epdModel),
      "api_key" := OptStrJson(c.apiKey),
      "flip" := JBool(c.flip)])
  }

  /** `to_json`, up to the text encoding. */
  function ToJson(c: TinytickerConfig): Json
  {
    ToDict(c)
  }

  /** Reads a string keyword argument, falling back to its default. */
  function StrField(m: map<string, Json>, key: string, default: string): (r: Result<string>)
    ensures r.Ok? <==> key !in m || m[key].JStr?
    ensures key !in m ==> r == Ok(default)
    ensures key in m && m[key].JStr? ==> r == Ok(m[key].s)
  {
    if key !in m then Ok(default)
    else match m[key]
      case JStr(s) => Ok(s)
      case _ => Err(TypeError)
  }

  /** Reads an optional integer keyword argument; its default is `None`. */
  function OptIntField(m: map<string, Json>, key: string): (r: Result<Option<int>>)
    ensures r.Ok? <==> key !in m || m[key].JNull? || m[key].JInt?
    ensures key !in m || (key in m && m[key].JNull?) ==> r == Ok(None)
    ensures key in m && m[key].JInt? ==> r == Ok(Some(m[key].i))
  {
    if key !in m then Ok(None)
    else match m[key]
      case JNull => Ok(None)
      case JInt(i) => Ok(Some(i))
      case _ => Err(TypeError)
  }

  /**
   * Every keyword a ticker dictionary gives has the JSON type of its field:
   * a string, or an integer or `null` for the optional integers.
   */
  predicate WellTypedTicker(m: map<string, Json>)
  {
    && ("symbol_type" in m ==> m["symbol_type"].JStr?)
    && ("symbol" in m ==> m["symbol"].JStr?)
    && ("interval" in m ==> m["interval"].JStr?)
    && ("lookback" in m ==> m["lookback"].JNull? || m["lookback"].JInt?)
    && ("wait_time" in m ==> m["wait_time"].JNull? || m["wait_time"].JInt?)
    && ("plot_type" in m ==> m["plot_type"].JStr?)
    && ("mav" in m ==> m["mav"].JNull? || m["mav"].JInt?)
  }

  /** The string a keyword gives, or the field's default when it is missing. */
  function StrOr(m: map<string, Json>, key: string, default: string): string
    requires key in m ==> m[key].JStr?
  {
    if key in m then m[key].s else default
  }

  /** The optional integer a keyword gives (`null` is `None`), or `None` when it is missing. */
  function OptIntOr(m: map<string, Json>, key: string): Option<int>
    requires key in m ==> m[key].JNull? || m[key].JInt?
  {
    if key in m && m[key].JInt? then Some(m[key].i) else None
  }

  /**
   * `TickerConfig(**data)`: a non-mapping or an unknown keyword is a
   * `TypeError`; missing keywords take their defaults, and the others
   * give their values.
   */
  function TickerFromDict(j: Json): (r: Result<TickerConfig>)
    ensures !j.JObj? ==> r == Err(TypeError)
    ensures j.JObj? && !(j.fields.Keys <= TickerKeys) ==> r == Err(TypeError)
    ensures j == JObj(map[]) ==> r == Ok(DefaultTicker)
    ensures r.Ok? <==> j.JObj? && j.fields.Keys <= TickerKeys && WellTypedTicker(j.fields)
    ensures r.Ok? ==>
              var m := j.fields;
              r.value == TickerConfig(
                StrOr(m, "symbol_type", DefaultTicker.symbolType),
                StrOr(m, "symbol", DefaultTicker.symbol),
                StrOr(m, "interval", DefaultTicker.interval),
                OptIntOr(m, "lookback"),
                OptIntOr(m, "wait_time"),
                StrOr(m, "plot_type", DefaultTicker.plotType),
                OptIntOr(m, "mav"))
  {
    match j
    case JObj(m) =>
      if !(m.Keys <= TickerKeys) then Err(TypeError)
      else
        var symbolType :- StrField(m, "symbol_type", "stock");
        var symbol :- StrField(m, "symbol", "SPY");
        var interval :- StrField(m, "interval", "1d");
        var lookback :- OptIntField(m, "lookback");
        var waitTime :- OptIntField(m, "wait_time");
        var plotType :- StrField(m, "plot_type", "candlestick");
        var mav :- OptIntField(m, "mav");
        Ok(TickerConfig(symbolType, symbol, interval, lookback, waitTime, plotType, mav))
    case _ => Err(TypeError)
  }

  /** A dictionary naming only the symbol keeps every other field's default. */
  lemma SymbolOnlyKeepsDefaults(sym: string)
    ensures TickerFromDict(JObj(map["symbol" := JStr(sym)])) == Ok(DefaultTicker.(symbol := sym))
  {
  }

  /** Every ticker dict reads back as the ticker it came from. */
  lemma TickerRoundTrip(t: TickerConfig)
    ensures TickerFromDict(TickerToDict(t)) == Ok(t)
  {
  }

  /** `[TickerConfig(**x) for x in items]`, stopping at the first failure. */
  function TickersFromList(items: seq<Json>): (r: Result<seq<TickerConfig>>)
    ensures r.Ok? ==> |r.value| == |items|
    ensures r.Ok? ==> forall i :: 0 <= i < |items| ==> TickerFromDict(items[i]) == Ok(r.value[i])
    ensures r.Err? ==> exists i :: 0 <= i < |items| && TickerFromDict(items[i]).Err?
  {
    if |items| == 0 then Ok([])
    else
      var t :- TickerFromDict(items[0]);
      var rest :- TickersFromList(items[1..]);
      Ok([t] + rest)
  }

  /**
   * `[TickerConfig(**x) for x in value]` for any JSON value: a list gives
   * its items; iterating a dict gives its keys and a string its characters,
   * strings that are not mappings, so only the empty ones succeed; other
   * values are not iterable.
   */
  function TickersFrom(v: Json): Result<seq<TickerConfig>>
  {
    match v
    case JArr(items) => TickersFromList(items)
    case JObj(m) => if m == map[] then Ok([]) else Err(TypeError)
    case JStr(s) => if s == "" then Ok([]) else Err(TypeError)
    case _ => Err(TypeError)
  }

  /**
   * `from_json` on the decoded document: not an object is a `TypeError`
   * (it cannot be indexed by "tickers"), a missing "tickers" is a
   * `KeyError`, and then `TinytickerConfig(**data)` with the rebuilt tickers.
   */
  function FromJson(j: Json): (r: Result<TinytickerConfig>)
    ensures !j.JObj? ==> r == Err(TypeError)
    ensures j.JObj? && "tickers" !in j.fields ==> r == Err(KeyError)
    ensures j.JObj? && !(j.fields.Keys <= ConfigKeys) ==> r.Err?
    ensures r.Ok? ==> j.JObj? && "tickers" in j.fields
    ensures r.Ok? && j.fields["tickers"].JArr? ==> |r.value.tickers| == |j.fields["tickers"].items|
  {
    match j
    case JObj(m) =>
      if "tickers" !in m then Err(KeyError)
      else
        var tickers :- TickersFrom(m["tickers"]);
        if !(m.Keys <= ConfigKeys) then Err(TypeError)
        else
          var epdModel :- StrField(m, "epd_model", "EPD_v3");
          var apiKey :- match (if "api_key" in m then m["api_key"] else JNull)
            case JNull => Ok(None)
            case JStr(s) => Ok(Some(s))
            case _ => Err(TypeError);
          var flip :- match (if "flip" in m then m["flip"] else JBool(false))
            case JBool(b) => Ok(b)
            case _ => Err(TypeError);
          Ok(TinytickerConfig(tickers, epdModel, apiKey, flip))
    case _ => Err(TypeError)
  }

  /** `from_json(to_json(c)) == c`. */
  lemma {:induction false} JsonRoundTrip(c: TinytickerConfig)
    ensures FromJson(ToJson(c)) == Ok(c)
  {
    var m := ToDict(c).fields;
    TickersRoundTrip(c.tickers, m["tickers"].items);
    FieldsRoundTrip(c);
  }

  /** With the tickers read back, the other fields of `to_dict` read back too. */
  lemma FieldsRoundTrip(c: TinytickerConfig)
    requires TickersFrom(ToDict(c).fields["tickers"]) == Ok(c.tickers)
    ensures FromJson(ToDict(c)) == Ok(c)
  {
    var m := ToDict(c).fields;
    assert StrField(m, "epd_model", "EPD_v3") == Ok(c.epdModel);
  }

  lemma {:induction false} TickersRoundTrip(ts: seq<TickerConfig>, items: seq<Json>)
    requires |items| == |ts| && forall i :: 0 <= i < |ts| ==> items[i] == TickerToDict(ts[i])
    ensures TickersFromList(items) == Ok(ts)
  {
    if |ts| > 0 {
      TickerRoundTrip(ts[0]);
      TickersRoundTrip(ts[1..], items[1..]);
      assert [ts[0]] + ts[1..] == ts;
    }
  }

  /** An object with only "tickers": [] is the default display with no tickers. */
  lemma OnlyTickersGivesDefaults()
    ensures FromJson(JObj(map["tickers" := JArr([])])) == Ok(TinytickerConfig([], "EPD_v3", None, false))
  {
  }

  /**
   * `from_file`, as written: the file is decoded with `json.load` and the
   * result handed to `from_json`, which decodes it again with `json.loads`.
   * That accepts only a string (`loads` models decoding its text); any other
   * document is a `TypeError`.
   */
  function FromFileAsWritten(document: Json, loads: string -> Result<Json>): (r: Result<TinytickerConfig>)
    ensures !document.JStr? ==> r == Err(TypeError)
  {
    match document
    case JStr(text) =>
      var j :- loads(text);
      FromJson(j)
    case _ => Err(TypeError)
  }

  /** A file written by `to_file` never reads back: `to_file` writes an object. */
  lemma WrittenFileNeverReadsBack(c: TinytickerConfig, loads: string -> Result<Json>)
    ensures FromFileAsWritten(ToDict(c), loads) == Err(TypeError)
  {
  }

  /** `from_file` as evidently intended: the decoded document goes straight to the object reader. */
  function FromFile(document: Json): (r: Result<TinytickerConfig>)
    ensures !document.JObj? ==> r == Err(TypeError)
    ensures r.Ok? ==> document.JObj? && "tickers" in document.fields
  {
    FromJson(document)
  }

  /** Reading back what `to_file` wrote gives the same config. */
  lemma FileRoundTrip(c: TinytickerConfig)
    ensures FromFile(ToDict(c)) == Ok(c)
  {
    JsonRoundTrip(c);
  }
}
