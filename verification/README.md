# tinyticker in Dafny

tinyticker shows stock and crypto prices on a Raspberry Pi e-Paper display.
It has four parts:

- a Flask configuration page, with a small client script;
- a JSON configuration file;
- ticker objects that query the price APIs;
- a rotation that cycles through them, steered over a local socket.

The rendered image is packed into the byte buffers that the Waveshare
panel drivers send to the display controller. This project models the
parts of that pipeline that are pure logic and proves what they promise:

- **Configuration page**
  - `TickerList`: the repeated ticker blocks of the page script. Adding a
    block inserts a clone. Removing a block starts an exit animation, and the
    block is detached only when that animation ends.
  - `WebApp` (`web/app.py`): the form-value helpers, the transposition of
    per-field lists into ticker records, the command menu, command dispatch
    and the log-file whitelist.
  - `LegacyWeb` (`web/web.py`): the older argument normaliser and command
    dispatch.
  - `Registry`, `Commands`, `Layouts`: the decorator registries keyed by a
    function's name with `_` turned into a space, and their built-in
    contents.
  - `Config`: the configuration records, their defaults and the dictionary
    round trip.
- **Tickers**
  - `TickerBase`: the interval tables, the constructor, logo memoisation,
    the current-price fallback and `__str__`.
  - `TickerFactory`: dispatch on the symbol type.
  - `Crypto`: granularity and request-limit selection, trimming, and the
    price choice.
  - `Stock`: the query window, with its weekend and week corrections, and
    trimming.
  - `LegacyTicker` (`ticker.py`): the older single-file ticker, compared with
    the newer one.
  - Shared support: `Frames` (a price history as a sequence of rows) and
    `Calendar` (pandas' `weekday()` and ISO `week` on UTC seconds).
- **Rotation**
  - `TickerSequence`: `Sequence`'s constructor, `go_to_index`, and one pass
    of `start` with skipping, `current_index` and the outdated test.
  - `SocketControl`: the "next"/"previous" messages.
- **Display**
  - `Display`: the 180-degree flip, the red-pixel highlight mask, the
    init/display/sleep order and the layout fallback.
  - `Panel`: what a display controller keeps from a stream of command and
    data transfers, namely the bytes written under each command.
  - `Bits`, `Raster`, `Gray4`, `MonoBuffer`: shared pixel packing.
  - `Epd2in7`, `Epd2in7V2`, `Epd2in13`, `Epd2in13bV3`: each driver's buffer
    builder, and the transfer sequence of each of its display and clear
    operations.
- **Older `rpi_ticker_epaper` package**
  - `RpiDisplay`: the sign classifier.
  - `RpiTicker`: the ticker constructor and one step of `tick`.

Throughout the model:

- Errors that Python raises are `Result.Err` values carrying the exception
  class.
- Times are integer UTC seconds.
- Prices are reals that are only carried, never computed on.
- Images are grids of byte pixels.
- The network, the clock and foreign libraries are function parameters.

The page script `index.js` defines only `add_ticker` and `remove_ticker`,
and `utils.py` defines no update check; the model covers those two
functions and nothing more of the page.

`web/app.py` passes fields (`sequence`, `volume`, `prepost`,
`avg_buy_price`, `layout`) that the `config.py` dataclasses lack. The
model follows `config.py` as written. For the app it models only the
steps up to the per-ticker dictionaries.

## Model

| member | source | states |
|---|---|---|
| Text.ReplaceCharSpec | tinyticker/web/command.py:26 | `str.replace` of one character: the length is kept, exactly the matching positions change, and none of the replaced character remains |
| Text.ParseIntOfIntToString | tinyticker/web/app.py:45-48 | `int()` reads back the decimal rendering of every integer, negative ones included |
| Text.ParsePaddedInt | tinyticker/web/app.py:45-48 | `int()` ignores ASCII white space on either side of an integer's rendering |
| Text.StripPadded | tinyticker/web/app.py:45-48 | stripping removes exactly the white space around a string that neither starts nor ends with white space |
| Text.ParsePaddedExamples | tinyticker/web/app.py:45-48 | `int(" 30")` and `int("30\n")` are 30 |
| Text.ParseGroupedExample | tinyticker/web/app.py:45-48 | `int("1_0")` is 10: one underscore between digits is dropped |
| Text.ParseRejectsDoubledUnderscore | tinyticker/web/app.py:45-48 | `int("1__0")` raises |
| Text.ParseRejectsOuterUnderscore | tinyticker/web/app.py:45-48 | `int("_1")` and `int("1_")` raise |
| Text.SplitJoin | tinyticker/tickers/_base.py:140-149 | splitting a tab-joined list of tab-free fields on tabs returns the fields |
| Registry.DisplayNameSpec | tinyticker/web/command.py:26 | the registered name has the function name's length, no underscore, and differs from it exactly where the name had `_` (now a space) |
| Registry.Register | tinyticker/web/command.py:24-28 | registration returns the function unchanged, adds or overwrites only the display-name key with the function and its docstring, keeps every other entry, and keeps every entry filed under its own name |
| Registry.RegisterAllKeys | tinyticker/layouts/register.py:28-31 | after a run of registrations the keys are the old keys plus the display names of the registered functions, and nothing else |
| Registry.RegisterAllEntries | tinyticker/layouts/register.py:28-32 | with distinct display names, each function's entry holds it and its docstring, and untouched keys keep their entries |
| Registry.RegisterAllConsistent | tinyticker/web/command.py:27 | every entry stays filed under its own name across any run of registrations |
| Commands.SignalTinyticker | tinyticker/web/command.py:54-60 | a signal is sent to the recorded process exactly when a PID file holding a number exists, and nothing happens when there is no PID file |
| Commands.Run | tinyticker/web/command.py:51-107 | restart sends SIGUSR1 and refresh SIGUSR2; update runs pip with `--break-system-packages` first, and retries without it exactly when that attempt fails |
| Commands.WifiResetThenReboots | tinyticker/web/command.py:82-87 | "wifi reset" clears the comitup settings and then does exactly what reboot does |
| Commands.DefaultThenRefreshes | tinyticker/web/command.py:102-107 | "default" writes the default configuration and then does exactly what refresh does |
| Commands.BuiltinNames | tinyticker/web/command.py:51-107 | the module registers restart, refresh, reboot, "wifi reset", update and default, in that order |
| Commands.BuiltinNamesDistinct | tinyticker/web/command.py:51-107 | the six registered names are pairwise distinct, so no command overwrites another |
| Commands.CommandsKeys | tinyticker/web/command.py:14 | `COMMANDS` holds a key exactly when it is one of the six command names |
| Commands.CommandsEntries | tinyticker/web/command.py:26-27 | each built-in command is stored under its name with its own function and docstring |
| Layouts.BuiltinNames | tinyticker/layouts/register.py:29 | the built-in layouts register as "default", "big price" and "big logo" |
| Layouts.LayoutsContents | tinyticker/layouts/register.py:28-31 | `LAYOUTS` holds exactly the three names, each with its own function and docstring |
| Layouts.UnderscoreNamesNeverRegistered | tinyticker/layouts/register.py:29 | no name containing `_` is ever a key of `LAYOUTS` |
| TickerList.Clone | tinyticker/web/templates/js/index.js:4 | a deep clone copies the classes and the fields but no listener, so it is never exiting |
| TickerList.AddTicker | tinyticker/web/templates/js/index.js:1-5 | adding grows the page by one block, keeps every existing block in place, and puts a listener-free copy of the last block right after it |
| TickerList.MarkExiting | tinyticker/web/templates/js/index.js:12-17 | the target loses slide-right, gains slide-top and reverse, keeps its other classes and fields, and gets a detaching listener |
| TickerList.RemoveTicker | tinyticker/web/templates/js/index.js:7-18 | with exactly one attached block nothing changes; otherwise only the target is marked exiting, and it stays attached |
| TickerList.AnimationEnd | tinyticker/web/templates/js/index.js:13-15 | a block is detached, with its neighbours closing up, only when it carries a listener |
| TickerList.OnlyAnimationEndDetaches | tinyticker/web/templates/js/index.js:13-15 | no event but an animation end ever shrinks the page |
| TickerList.AddRemoveRoundTrip | tinyticker/web/templates/js/index.js:1-18 | removing the block just added keeps it attached until its animation ends, and that gives back the original page |
| TickerList.SoleBlockIsKept | tinyticker/web/templates/js/index.js:8-11 | a page with one block keeps it under any sequence of removals |
| TickerList.OverlappingRemovalsEmptyThePage | tinyticker/web/templates/js/index.js:8-15 | the one-block guard counts blocks already animating out, so two quick removals empty the page, and then adding is impossible |
| TickerList.CloneOfExitingBlockStays | tinyticker/web/templates/js/index.js:4 | a clone of an exiting block copies its exit classes but not its listener, so its own animation end leaves it attached |
| WebApp.NoEmptyStr | tinyticker/web/app.py:33-36 | the result is `None` exactly for the empty string, and the string itself otherwise |
| WebApp.NoEmptyInt | tinyticker/web/app.py:45-48 | "" gives `None`; any other string gives the integer `int()` reads from it, and raises `ValueError` when `int()` does |
| WebApp.NoEmptyIntRoundTrip | tinyticker/web/app.py:45-48 | every integer's decimal rendering converts back to that integer |
| WebApp.NoEmptyIntPadded | tinyticker/web/app.py:45-48 | a number typed with white space around it converts to that number |
| WebApp.NoEmptyIntBlank | tinyticker/web/app.py:45-48 | a field of one blank is not empty, so it raises `ValueError` instead of giving `None` |
| WebApp.StrToBool | tinyticker/web/app.py:51-56 | "1" gives True and "0" gives False, each in both directions; every other string gives `None` |
| WebApp.CheckboxOnIsNotABool | tinyticker/web/app.py:51-56 | a checkbox's "on" and the empty string both convert to `None` |
| WebApp.Transpose | tinyticker/web/app.py:128-130 | `zip(*lists)` has as many rows as the shortest list, and row `i` takes element `i` of every list |
| WebApp.Records | tinyticker/web/app.py:107-130 | the number of ticker records equals the shortest field list, and every record has exactly the field names as keys |
| WebApp.RecordsColumns | tinyticker/web/app.py:128-130 | record `i` maps field `j` to element `i` of list `j` |
| WebApp.TickerFieldsDistinct | tinyticker/web/app.py:107-119 | the per-ticker form fields are pairwise distinct, so no column overwrites another |
| WebApp.ConfigSettings | tinyticker/web/app.py:121-137 | an absent or empty API key becomes `None`; the display model defaults to "EPD_v3"; flip and skip-outdated default off, and skip-empty defaults on |
| WebApp.Menu | tinyticker/web/app.py:71 | the menu lists every registered command except "update", with its description |
| WebApp.MenuKeyedByName | tinyticker/web/app.py:71 | in a registry whose keys are their entries' names, the menu keyed on registry keys is the dictionary keyed on `cmd.name`, with each entry's description |
| WebApp.BuiltinMenu | tinyticker/web/app.py:71 | with the built-in commands the menu offers exactly the five commands other than "update" |
| WebApp.CommandToRun | tinyticker/web/app.py:144-153 | a command runs exactly when a non-empty registered name is given, and it is that name's entry |
| WebApp.UpdateRunsButIsHidden | tinyticker/web/app.py:71 | "update" is missing from the menu but still runs when requested by name |
| WebApp.LogFiles | tinyticker/web/app.py:72 | the listed log files are exactly the directory entries ending in ".log" |
| WebApp.SendLog | tinyticker/web/app.py:175-183 | a log is served exactly when it was listed at startup and still exists; every other request is 404 |
| WebApp.LateLogNeverServed | tinyticker/web/app.py:175-178 | a log file created after startup is never served |
| LegacyWeb.NormaliseArgs | tinyticker/web/web.py:35-49 | the keys are the argument keys plus "flip"; an empty lookback becomes `None`; flip is true exactly when present; every other argument is copied unchanged |
| LegacyWeb.FlipPresenceIsTrue | tinyticker/web/web.py:42-43 | any "flip" value, "0" and "" included, becomes True |
| LegacyWeb.NonEmptyArgsKeptAsStrings | tinyticker/web/web.py:39-46 | with flip present and a non-empty lookback, every argument but flip is kept as its string |
| LegacyWeb.RunCommandAsWritten | tinyticker/web/web.py:51-58 | no command runs; a non-empty registered name raises `TypeError`, and anything else is a no-op |
| LegacyWeb.UnknownCommandIsNoOp | tinyticker/web/web.py:54-56 | an unknown command name does nothing |
| LegacyWeb.RegisteredCommandFails | tinyticker/web/web.py:56 | requesting "restart" raises `TypeError` instead of restarting |
| LegacyWeb.AsWrittenVersusIntended | tinyticker/web/web.py:54-56 | this route raises exactly where the newer route would start a command |
| Config.TickerToDict | tinyticker/config.py:53-54 | a ticker's dictionary has exactly the seven dataclass field names as keys |
| Config.ToDict | tinyticker/config.py:53-54 | the dictionary has exactly the four field names, and one ticker dictionary per ticker, in order |
| Config.TickerFromDict | tinyticker/config.py:45-47 | a non-object or an unknown key raises `TypeError`; an object of well-typed known keys gives a ticker whose every field is the key's value when present and the default otherwise, so an empty object gives the default ticker |
| Config.SymbolOnlyKeepsDefaults | tinyticker/config.py:14-22 | a dictionary naming only the symbol gives the default ticker with that symbol |
| Config.TickerRoundTrip | tinyticker/config.py:45-54 | every ticker reads back from its own dictionary |
| Config.TickersFromList | tinyticker/config.py:45-47 | every entry of "tickers" is rebuilt as a ticker, in order, or the first failure is reported |
| Config.FromJson | tinyticker/config.py:42-48 | a non-object raises `TypeError` and a missing "tickers" raises `KeyError`; unknown keys are rejected; the ticker count is kept |
| Config.JsonRoundTrip | tinyticker/config.py:42-54 | reading what `to_json` wrote gives back the same configuration |
| Config.TickersRoundTrip | tinyticker/config.py:45-47 | a list of ticker dictionaries reads back as the tickers it came from |
| Config.OnlyTickersGivesDefaults | tinyticker/config.py:26-30 | the fields other than tickers take their defaults: "EPD_v3", no API key and no flip |
| Config.FromFileAsWritten | tinyticker/config.py:32-36 | `from_file` as written decodes the file twice, so any object document raises `TypeError` |
| Config.WrittenFileNeverReadsBack | tinyticker/config.py:33-40 | no file that `to_file` wrote can be read back by `from_file` |
| Config.FromFile | tinyticker/config.py:32-36 | `from_file` as intended: a non-object raises `TypeError`, and a result requires "tickers" |
| Config.FileRoundTrip | tinyticker/config.py:33-40 | reading back what `to_file` wrote gives the same configuration |
| Frames.Trim | tinyticker/tickers/stock.py:110-111 | for a positive lookback the result is the last `min(n, lookback)` rows; zero keeps all rows; a negative lookback drops that many rows from the front |
| Frames.TrimIdempotent | tinyticker/tickers/crypto.py:106-107 | trimming twice to the same positive lookback trims no more than once |
| Frames.TrimKeepsLatest | tinyticker/tickers/crypto.py:106-107 | trimming a non-empty history to a positive lookback keeps its latest row last |
| Frames.LastClose | tinyticker/tickers/stock.py:118 | the last row's close, and `IndexError` exactly for an empty history |
| Stock.MarketStart | tinyticker/tickers/stock.py:48-55 | the start is at least interval × lookback before the end, and daily or longer intervals go no further; an intraday interval goes back a whole number `d` of extra days, the one with (d - 1) × 6.5 h ≤ interval × lookback < d × 6.5 h |
| Stock.TradingDays | tinyticker/tickers/stock.py:52-55 | `span // 6.5h + 1` trading days are the only day count whose 6.5-hour sessions first cover the span |
| Stock.BeforeWeekend | tinyticker/tickers/stock.py:62 | the result is never a Saturday or Sunday; weekdays are kept and weekend days move back to the Friday before, at most two days earlier |
| Stock.ShiftBack | tinyticker/tickers/stock.py:58-62 | the window's start moves back 3 days per counted week and then at most 2 more days, to a weekday; the end is now |
| Stock.WindowAsWritten | tinyticker/tickers/stock.py:44-63 | the window ends now and starts on a weekday, 3 days before the market start per unit of ISO-week-number difference between now and that start, then at most 2 more days back |
| Stock.WindowAsWrittenIsShift | tinyticker/tickers/stock.py:58-62 | the written window is the market start shifted back by the ISO-week-number difference |
| Stock.Window | tinyticker/tickers/stock.py:44-63 | as written, but counting weeks across years: the start moves back 3 days per week between the market start and now, so it is never later than interval × lookback before the end |
| Stock.WindowIsShift | tinyticker/tickers/stock.py:58-62 | the corrected window is the market start shifted back by the running week difference |
| Stock.WindowsAgreeWithinYear | tinyticker/tickers/stock.py:58 | where the ISO week difference equals the running week difference, the written and the corrected windows coincide |
| Stock.NewYearWindowIsInverted | tinyticker/tickers/stock.py:58 | on 2024-01-01 with a daily interval and lookback 30, the written window starts on 2024-04-19, after its end |
| Stock.NewYearWindowIsCorrected | tinyticker/tickers/stock.py:58 | on the same input the corrected window starts on Friday 2023-11-17 |
| Stock.SingleTick | tinyticker/tickers/stock.py:95-119 | an empty history raises `ValueError`; otherwise the history is trimmed to the lookback, and the price is its last close |
| Stock.StockPriceIsLastClose | tinyticker/tickers/stock.py:118 | the stock ticker always supplies a price, so the base class never falls back |
| TickerBase.IntervalTable | tinyticker/tickers/_base.py:13-53 | exactly the eleven listed intervals have a positive duration, and each has a default lookback |
| TickerBase.QuarterHasNoDuration | tinyticker/tickers/_base.py:33-53 | "3mo" has a default lookback but no duration |
| TickerBase.Init | tinyticker/tickers/_base.py:80-88 | construction raises `KeyError` exactly for an unlisted interval; otherwise the lookback is the configured one when set, else the interval's default |
| TickerBase.QuarterlyTickerFails | tinyticker/tickers/_base.py:83 | a "3mo" ticker cannot be constructed |
| TickerBase.GetLogo | tinyticker/tickers/_base.py:90-95 | the fetcher is called exactly when no logo is cached, and a cached logo is returned unchanged |
| TickerBase.LogoFetchedAtMostOnce | tinyticker/tickers/_base.py:90-95 | once a fetch returned a value, false included, the fetcher is never called again |
| TickerBase.StubLogoRefetches | tinyticker/tickers/_base.py:92-94 | a fetcher returning `None` is called again on every access |
| TickerBase.CurrentPriceFallback | tinyticker/tickers/_base.py:111-126 | the given price is used when present; otherwise the last close is used, and an empty history then raises `IndexError` |
| TickerBase.DescribeSplits | tinyticker/tickers/_base.py:140-149 | `__str__` splits on tabs into "Ticker", the symbol type, the symbol, "<lookback>x<interval>" and "<wait_time>s" |
| TickerBase.UnsetWaitTimeReadsNones | tinyticker/tickers/_base.py:147 | an unset wait time is described as "Nones" |
| TickerFactory.ClassOf | tinyticker/tickers/__init__.py:11-24 | "crypto" selects the crypto class and "stock" the stock class, both ways round; any other type raises `KeyError` |
| TickerFactory.New | tinyticker/tickers/__init__.py:26-31 | construction is the chosen class's `from_config` applied to both configurations |
| TickerFactory.NewErrors | tinyticker/tickers/__init__.py:22-31 | an unknown type raises `KeyError`; crypto without an API key raises `ValueError`; a result exists only for a known type and a listed interval |
| TickerFactory.DefaultBuildsStock | tinyticker/tickers/__init__.py:26-31 | the default configuration builds a daily stock ticker with lookback 30 |
| Crypto.ChooseIsLargestFitting | tinyticker/tickers/crypto.py:47-54 | the granularity is the largest of minute, hour and day that is not longer than the interval, and minute below one minute |
| Crypto.ScaleFactor | tinyticker/tickers/crypto.py:57 | the scale is the interval divided by the granularity, truncated toward zero |
| Crypto.MakeRequest | tinyticker/tickers/crypto.py:47-62 | the limit is the smaller of lookback × scale and 1440, so it never exceeds 1440 |
| Crypto.RequestExamples | tinyticker/tickers/crypto.py:57-62 | daily ×30 asks 30 days; hourly ×2000 is capped at 1440 hours; five-day ×30 asks 150 days |
| Crypto.GetCryptocompare | tinyticker/tickers/crypto.py:26-109 | an empty answer raises `ValueError`; at the native granularity the answer is only trimmed; otherwise the resampled rows are kept only when there is one per `scale_factor` fetched rows, else `ValueError`; at most lookback of the latest rows are kept |
| Crypto.StepLength | tinyticker/tickers/crypto.py:102 | `index[::k]` has ceil(n / abs(k)) entries: the fewest steps of abs(k) that cover n |
| Crypto.Relabel | tinyticker/tickers/crypto.py:91-102 | assigning the every-`scale_factor`-th old index to the resampled frame succeeds exactly when the lengths agree, and raises `ValueError` otherwise (a zero step included) |
| Crypto.NinetyMinutesNeedOneRowPerCandle | tinyticker/tickers/crypto.py:91-102 | a 90-minute interval fetches hourly candles with scale 1, so any resampling that merges candles raises `ValueError` |
| Crypto.SubMinuteIntervalsFail | tinyticker/tickers/crypto.py:57-102 | an interval under one minute gives scale 0, so the fetch always fails |
| Crypto.NativeGranularityIgnoresResampling | tinyticker/tickers/crypto.py:91 | for a minute, hour or day interval the resampler is never used |
| Crypto.FromConfig | tinyticker/tickers/crypto.py:115-119 | a missing API key raises `ValueError`; otherwise the base construction's outcome is taken, with the key kept |
| Crypto.CurrentPrice | tinyticker/tickers/crypto.py:150-155 | no answer gives no price; otherwise the answer's USD price for the symbol, and a missing entry raises `KeyError` |
| Crypto.SingleTick | tinyticker/tickers/crypto.py:143-156 | a failed history fetch fails the tick; without a price answer the last close of the trimmed history is the price; with an answer the price is its USD entry for the symbol, and a missing entry raises `KeyError` |
| Crypto.AnsweredPriceWins | tinyticker/tickers/crypto.py:150-155 | once the price API answers, the history does not decide the price: any two successfully fetched histories give the same outcome and the same price |
| TickerSequence.NewSequence | tinyticker/sequence.py:55-63 | an empty ticker list raises `ValueError`; otherwise nothing is skipped and there is no current index |
| TickerSequence.GoToIndex | tinyticker/sequence.py:65-74 | an index outside the list changes nothing; a valid one sets the skip flag and the target; the flag never points outside the list |
| TickerSequence.OutdatedThreshold | tinyticker/sequence.py:115-120 | the threshold is the larger of five minutes and the interval, doubled when exactly one day |
| TickerSequence.Classify | tinyticker/sequence.py:102-126 | a ticker is shown exactly when it fetched, is non-empty if skip-empty is on, and is fresh if skip-outdated is on; an empty history crashes only with skip-outdated on and skip-empty off |
| TickerSequence.PassFromValid | tinyticker/sequence.py:93-100 | a pass keeps the skip flag's target inside the list; the tickers it fetches and shows lie between its start and the end of the list, in strictly increasing order |
| TickerSequence.CurrentIndexIsLastFetched | tinyticker/sequence.py:100 | after a pass, `current_index` is the last ticker fetched |
| TickerSequence.PassShowsAll | tinyticker/sequence.py:93-128 | with no skip pending and every ticker shown, a pass fetches and shows the tickers from `i` to the end, in list order |
| TickerSequence.SkipUntilTarget | tinyticker/sequence.py:94-99 | while skipping, the tickers before the target are not fetched, and reaching the target clears the flag |
| TickerSequence.NoSkipStaysClear | tinyticker/sequence.py:94-96 | a pass that starts without a skip request ends without one |
| TickerSequence.RoundRobin | tinyticker/sequence.py:88-93 | repeated passes yield ticker `k mod n` at position `k` |
| TickerSequence.PassIsOneRound | tinyticker/sequence.py:93-128 | a full pass with every ticker shown yields one round, 0 to n - 1 |
| SocketControl.Parse | tinyticker/socket.py:12-14 | a text is a message exactly when it is that message's value |
| SocketControl.Handle | tinyticker/socket.py:35-54 | "next" requests (current + 1) mod n and "previous" (current - 1) mod n; before the first fetch, or for other text, nothing changes |
| SocketControl.RequestsAreAccepted | tinyticker/socket.py:42-51 | both requests lie inside the list, so the skip flag is always set with that target |
| SocketControl.WrapAround | tinyticker/socket.py:45-50 | "previous" from the first ticker targets the last one, and "next" from the last targets the first |
| SocketControl.SingleTickerTargetsItself | tinyticker/socket.py:45-50 | with one ticker, both messages target ticker 0 |
| SocketControl.HandleAllValid | tinyticker/socket.py:35-54 | any run of messages keeps the sequence state valid |
| SocketControl.HandleKeepsCount | tinyticker/socket.py:42-53 | messages never change the ticker count or the current index |
| LegacyTicker.TablesComparedToNewer | tinyticker/ticker.py:17-56 | the twelve intervals include "3mo" (90 days); the other durations agree with the newer table, and the lookbacks agree too, except 15 for "2m" and 16 for "15m" |
| LegacyTicker.Init | tinyticker/ticker.py:179-217 | `ValueError` for an unknown symbol type, an unknown interval, or crypto without a key; the lookback defaults from the table; the wait time defaults to the interval's seconds |
| LegacyTicker.DefaultArguments | tinyticker/ticker.py:179-217 | the default crypto ticker needs a key; with one it is a daily BTC ticker with lookback 30, waiting 86400 s |
| LegacyTicker.Describe | tinyticker/ticker.py:332-341 | the description splits on tabs into "Ticker", type, symbol, "<lookback>x<interval>" and the wait time |
| LegacyTicker.GetCryptocompare | tinyticker/ticker.py:102-161 | for a non-empty answer the newer fetch's result, its re-indexing error included; an empty answer raises `KeyError` here instead of `ValueError` |
| LegacyTicker.TickCrypto | tinyticker/ticker.py:243-257 | a failed history fails the tick with its own error; after a good history, an answer with a USD price for the symbol gives that price with the history, an answer without one raises `KeyError`, and no answer falls back to the last close |
| LegacyTicker.TickStock | tinyticker/ticker.py:280-318 | an empty history raises `ValueError`; the price is the last one-minute close when there is one, else the trimmed history's last close |
| LegacyTicker.NewSequence | tinyticker/ticker.py:389-390 | an empty ticker list raises `ValueError`, as in the newer rotation |
| LegacyTicker.PassMatchesNewer | tinyticker/ticker.py:395-437 | a pass of this file's `start` fetches, shows and crashes exactly as the newer one does when no skip is pending |
| Display.Rotate180 | tinyticker/display.py:94-95 | the image is turned upside down: row `y` is row `h-1-y`, reversed |
| Display.Rotate180Twice | tinyticker/display.py:94-95 | turning twice gives the image back |
| Display.RedMask | tinyticker/display.py:101-111 | the mask has the image's shape, with 0 at red pixels and 255 elsewhere |
| Display.Highlight | tinyticker/display.py:97-115 | a highlight exists exactly for highlight panels, RGB images and at least one red pixel; it is the red mask, with at least one 0 |
| Display.ShowImage | tinyticker/display.py:80-123 | each showing is init, display, sleep; the image is turned first when flip is set; highlight panels get the image and its highlight, and others get the image alone |
| Display.FlippedHighlightIsTurned | tinyticker/display.py:94-111 | with flip on, the highlight sent is the original's red mask turned upside down |
| Display.ChooseLayout | tinyticker/display.py:126 | a registered name gives its layout and an unknown one falls back to "default"; without "default" the lookup raises `KeyError` |
| Display.RegisteredLayoutsAlwaysFound | tinyticker/display.py:126 | with the built-in layouts every name finds a layout, and names with `_` fall back to the default layout |
| Raster.Rotate90 | tinyticker/waveshare_lib/epd2in7.py:747 | a quarter turn: the width and height swap, and pixel (x, y) is the source's (w-1-y, x) |
| Gray4.Quantize | tinyticker/waveshare_lib/epd2in7.py:755-758 | four levels: above 0xC0 gives 0xC0; 0x81-0xC0 gives 0x80; 0x40-0x80 gives 0x40; below 0x40 gives 0 |
| Gray4.QuantizeMonotone | tinyticker/waveshare_lib/epd2in7.py:755-758 | a brighter pixel never gets a darker level |
| Gray4.PackGroup | tinyticker/waveshare_lib/epd2in7.py:760-765 | four quantised pixels pack into a byte that reads back as those levels, the first in bits 7-6 |
| Gray4.BitFor | tinyticker/waveshare_lib/epd2in7.py:787-806 | the if-chain on a level stores its high bit, its low bit, or their negations, as the plane requires |
| Gray4.PlaneByte | tinyticker/waveshare_lib/epd2in7.py:783-810 | bit `m` of a plane byte is the plane bit of pixel `m` of the grey pair, first pixel in the MSB |
| Gray4.Plane | tinyticker/waveshare_lib/epd2in7.py:781-810 | a plane has `count` bytes, and byte `i` is built from grey bytes `2i` and `2i+1` |
| Gray4.EncodePlane | tinyticker/waveshare_lib/epd2in7.py:781-811 | the driver loop produces exactly that plane |
| Gray4.EncodeByte | tinyticker/waveshare_lib/epd2in7.py:783-810 | the shift-and-or loop on `temp1`/`temp3` yields exactly that plane byte |
| Gray4.NegatedPlanes | tinyticker/waveshare_lib/epd2in7_V2.py:447-466 | storing the negated low bit gives the complement of the low-bit plane, and likewise for the high bit |
| MonoBuffer.RowBytes | tinyticker/waveshare_lib/epd2in13.py:217-221 | the row width in bytes is the smallest that holds `width` pixels |
| MonoBuffer.RowMajorIsPrefix | tinyticker/waveshare_lib/epd2in7_V2.py:355-363 | reading `image[i + j*Width]` row by row sends the first `Width*Height` bytes in order |
| MonoBuffer.OrientationOf | tinyticker/waveshare_lib/epd2in13.py:224-236 | portrait exactly for a (width, height) image, landscape exactly for (height, width), else neither |
| MonoBuffer.SourceOfTarget | tinyticker/waveshare_lib/epd2in13.py:233-241 | the landscape mapping is one-to-one: every buffer pixel comes from exactly one image pixel |
| MonoBuffer.Pack | tinyticker/waveshare_lib/epd2in13.py:216-242 | the buffer is `line*height` bytes, all white except bits cleared exactly at black pixels, through the portrait or landscape mapping |
| MonoBuffer.ShowsBytes | tinyticker/waveshare_lib/epd2in13.py:226-241 | each buffer byte's bits are the eight pixels it covers, first pixel in the MSB |
| MonoBuffer.NoneIsWhite | tinyticker/waveshare_lib/epd2in13.py:222 | an image of any other size gives the all-0xFF buffer |
| Epd2in7.Geometry | tinyticker/waveshare_lib/epd2in7.py:39-40 | 176 × 264 pixels: 22 bytes per row and 5808 bytes per plane |
| Epd2in7.GetBuffer | tinyticker/waveshare_lib/epd2in7.py:725-742 | an image of the panel's size or its transpose gives the converted bytes; any other size gives 5808 zero bytes |
| Epd2in7.GetBuffer4Gray | tinyticker/waveshare_lib/epd2in7.py:744-767 | only a 264 × 176 image gives a buffer, 11616 bytes long; each byte holds four quantised pixels of the rotated image, the first in bits 7-6 |
| Epd2in7.Display | tinyticker/waveshare_lib/epd2in7.py:769-777 | a short image raises `IndexError`; the controller keeps 5808 bytes of 0xFF as old data and the first 5808 image bytes as new data, then refreshes |
| Epd2in7.Clear | tinyticker/waveshare_lib/epd2in7.py:850-858 | both planes get 5808 bytes of the colour, then a refresh |
| Epd2in7.Display4Gray | tinyticker/waveshare_lib/epd2in7.py:779-842 | a buffer under 11616 bytes raises `IndexError`; plane 0x10 holds the levels' high bits and plane 0x13 their low bits, 5808 bytes each |
| Epd2in7.GreyPixelReachesPlanes | tinyticker/waveshare_lib/epd2in7.py:744-842 | from image to panel: pixel (x, y) of the rotated image sets its bit in plane 0x10 exactly when its level's high bit is set, and in 0x13 exactly when its low bit is set |
| Epd2in7V2.RowWidth | tinyticker/waveshare_lib/epd2in7_V2.py:350-353 | the row width is ceil(176/8) = 22, and a plane is 5808 bytes |
| Epd2in7V2.DisplayBase | tinyticker/waveshare_lib/epd2in7_V2.py:349-364 | a short image raises `IndexError`; both RAM planes receive the same first 5808 bytes, then the refresh |
| Epd2in7V2.DisplayBaseColor | tinyticker/waveshare_lib/epd2in7_V2.py:366-381 | both planes receive 5808 copies of the colour |
| Epd2in7V2.DisplayGrayscale | tinyticker/waveshare_lib/epd2in7_V2.py:440-505 | a short buffer raises `IndexError`; plane 0x24 holds the negated low bits and 0x26 the negated high bits, then the grey refresh |
| Epd2in7V2.PlanesAreSwappedComplements | tinyticker/waveshare_lib/epd2in7_V2.py:440-505 | this panel's two grey planes are the bitwise complements of the older driver's planes, with the planes swapped |
| Epd2in7V2.Lut | tinyticker/waveshare_lib/epd2in7_V2.py:212-215 | all 159 table entries are sent under 0x32 |
| Epd2in7V2.InitGrayscaleWith | tinyticker/waveshare_lib/epd2in7_V2.py:283-337 | the RAM window spans 176 × 264 pixels, the table goes under 0x32, and the voltages come from table entries 158, 153, 154 and 155-157 |
| Epd2in7V2.InitGrayscale | tinyticker/waveshare_lib/epd2in7_V2.py:283-337 | with the shipped table the voltages are 0x1C, 0x22, 0x17 and 0x41 0x00 0x32 |
| Epd2in13.TwoByteAddress | tinyticker/waveshare_lib/epd2in13.py:198-202 | a y address below 65536 is sent low byte first and reads back as itself |
| Epd2in13.SetWindows | tinyticker/waveshare_lib/epd2in13.py:194-202 | 0x44 receives the x bounds as byte columns and 0x45 the y bounds as two-byte addresses |
| Epd2in13.SetCursor | tinyticker/waveshare_lib/epd2in13.py:207-214 | 0x4E receives x as a byte column and 0x4F receives y as a two-byte address |
| Epd2in13.Display | tinyticker/waveshare_lib/epd2in13.py:244-256 | a short image raises `IndexError`; the RAM receives the first 4000 bytes, and the cursor visits rows 0 to 249 in order |
| Epd2in13.Clear | tinyticker/waveshare_lib/epd2in13.py:258-270 | the RAM receives 4000 bytes of the colour |
| Epd2in13.GetBuffer | tinyticker/waveshare_lib/epd2in13.py:216-242 | 4000 bytes; a bit is cleared exactly at a black pixel, in portrait directly and in landscape at (y, 249-x); any other size is all white |
| Epd2in13bV3.SourceIndex | tinyticker/waveshare_lib/epd2in13b_V3.py:119-122 | the index `(x + y*width)/8` equals `x/8 + 13*y` |
| Epd2in13bV3.GetBuffer | tinyticker/waveshare_lib/epd2in13b_V3.py:111-131 | 2756 bytes; a bit is cleared exactly at a black pixel, in portrait directly and in landscape at (y, 211-x); any other size is all white |
| Epd2in13bV3.Display | tinyticker/waveshare_lib/epd2in13b_V3.py:133-145 | a short black or highlight buffer raises `IndexError`; 2756 black bytes go under 0x10, and 2756 highlight bytes go under 0x13 only when highlights are given |
| Epd2in13bV3.Clear | tinyticker/waveshare_lib/epd2in13b_V3.py:147-158 | both planes receive 2756 bytes of 0xFF, then a refresh |
| RpiDisplay.DeltaSign | rpi_ticker_epaper/display.py:9-16 | "-" exactly for a negative delta, "=" exactly for zero, "+" exactly for positive |
| RpiDisplay.PriceIgnored | rpi_ticker_epaper/display.py:9-16 | the second argument never affects the result |
| RpiDisplay.OppositeChanges | rpi_ticker_epaper/display.py:10-15 | a delta gets "+" exactly when its negation gets "-", and "=" exactly when its negation does |
| RpiTicker.TablesAgree | rpi_ticker_epaper/ticker.py:8-17 | the lookback table and the wait-time table have exactly the keys day, hour and minute |
| RpiTicker.Init | rpi_ticker_epaper/ticker.py:32-60 | a missing API function raises `AttributeError` before the interval check; an unknown interval raises `ValueError`; explicit values override the defaults |
| RpiTicker.KnownIntervalsOnly | rpi_ticker_epaper/ticker.py:43-45 | with the library's candle functions present, construction succeeds exactly for day, hour and minute |
| RpiTicker.Defaults | rpi_ticker_epaper/ticker.py:32-57 | the default ticker is hourly BTC in USD, 12 candles, an hour apart |
| RpiTicker.TickRequest | rpi_ticker_epaper/ticker.py:72-77 | the request names the ticker's coin and currency, is stamped now, and with the candle at `toTs` covers exactly `look_back` candles |
| RpiTicker.DefaultRequestCoversLookback | rpi_ticker_epaper/ticker.py:49-77 | a ticker built without a look-back requests exactly its interval's default number of candles |
| RpiTicker.Tick | rpi_ticker_epaper/ticker.py:70-78 | a failing request yields `None`, and a successful one yields its answer |
| RpiTicker.TickStream | rpi_ticker_epaper/ticker.py:62-80 | the stream answers every request once, in order: a failure yields `None` and the stream goes on, and the `None`s are exactly the refused requests |

## Left out

- Hardware I/O is left out: SPI and GPIO plumbing, `reset`, `ReadBusy`, `sleep`, and each driver's `init` script. The exception is `init_grayscale` of the V2 panel, whose window, voltages and table are modelled. A driver's output is modelled as the sequence of command and data transfers, read through `Panel`.
- `gray_SetLut` and the waveform tables of `epd2in7.py` are left out: they are fixed byte tables sent before a refresh.
- `display_Partial` is left out: its condition is an operator-precedence tangle. Also left out are the V2 panel's `display`/`display_Fast`, which send the buffer in one bulk transfer with no logic of their own.
- The drivers that only call PIL's `convert`/`rotate`/`tobytes` are left out: epd2in13_V2/V3/V4, epd2in13b_V4, epd2in13bc, epd7in5_V2 and epd7in5b_V2.
- Epd2in7.GetBuffer: PIL's conversion to a 1-bit image is a parameter (`converted`), not modelled.
- Network calls are parameters: cryptocompare, yfinance, logo downloads. So are pandas resampling (`resample`), the clock (`now`) and the library's function set (`library`).
- Floating point is left out. Prices and deltas are `real`, so `RpiDisplay.DeltaSign` has no NaN case. `no_empty_float`, the matplotlib layouts, `_fix_prepost` and the other plotting helpers are omitted.
- `INTERVAL_WAIT_TIMES` of `web/app.py` is left out: it is computed in floating point.
- Sleeping, the asyncio server and socket framing are left out. So are the watchdog, `__main__` loops and threads. A rotation pass is modelled on the outcome of each fetch.
- Filesystem and process effects are modelled as an effect list (`Commands.Effect`), not performed. Hostname and startup-script routes are omitted.
- Flask's `getlist(type=...)` and `get(type=bool)` conversions are not modelled. `WebApp.ConfigSettings` takes the already converted values.
- The default of `TinytickerConfig.tickers` is modelled as intended, one default ticker. `config.py:27` gives a list as a dataclass default, which Python rejects when the class is created.
- Commands.SignalTinyticker: a PID file whose first line is not an integer makes `int(...)` raise `ValueError` (tinyticker/web/command.py:57, 69), and a recorded process that no longer exists makes `os.kill` raise `ProcessLookupError` (lines 58, 70). Neither exception is modelled: `Host.pid` is the number the file holds, and the kill is an effect whose outcome is not modelled.
- Config.TickerFromDict: only well-typed documents are modelled. A value of the wrong JSON type (a string lookback, say) raises `TypeError` here, while the dataclass constructor checks no types and would accept it.
- Config.FromJson: likewise, a mistyped "flip", "epd_model" or "api_key" raises `TypeError` here, while `TinytickerConfig` accepts it.
- Text.ParseInt: `int()` also accepts non-ASCII white space and Unicode decimal digits; the model covers ASCII white space and the digits 0-9 only.
- WebApp.NoEmptyInt: inherits that restriction, so a number written with non-ASCII digits or spaces raises `ValueError` here.
- `TickerList.AddTicker`: on a page with no block the script throws before changing anything; the model returns the page unchanged and does not model the exception.
- `Epd2in13.Display`: the window set by `display` ends at row 250, one past the last row. The contract states the values sent; it does not claim they stay inside the panel.
- `Stock.SingleTick`: the time-zone localisation and `_fix_prepost` are not modelled. They change timestamps and bar extremes, not the row count or the closes.
- `Crypto.GetCryptocompare`: column renaming is not modelled, and a resampled row is not tied to the timestamp it is relabelled with; only the length check of the re-indexing is.
- JSON text is not modelled: a JSON document is the value `json.loads` returns, so `Config.ToJson` is `to_dict`.

## Findings

| source | as written | input that shows it | evidently intended | confidence | as-written member | corrected member |
|---|---|---|---|---|---|---|
| tinyticker/tickers/stock.py:58 | the week correction uses `end.week - start.week`, a difference of ISO week numbers that restarts every year | now = 2024-01-01 00:00 UTC, interval 1d, lookback 30: start 2023-12-02 (week 48), end week 1, so the start moves 141 days forward, to 2024-04-19 | count the weeks between start and end across years, so the start only moves back | not executed | Stock.NewYearWindowIsInverted | Stock.NewYearWindowIsCorrected |
| tinyticker/config.py:33-36 | `from_file` decodes the file with `json.load`, then passes the dict to `from_json`, which calls `json.loads` on it again | any file written by `to_file`, e.g. the default configuration | pass the decoded document straight on, so a written file reads back | not executed | Config.WrittenFileNeverReadsBack | Config.FileRoundTrip |
| tinyticker/web/web.py:56 | the route calls the `Command` record that `COMMANDS.get` returns; the record is not callable | `/command?command=restart` | call the registered function (`.func`), as `web/app.py` does | not executed | LegacyWeb.RegisteredCommandFails | WebApp.CommandToRun |
