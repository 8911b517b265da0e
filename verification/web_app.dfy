/**
 * `web/app.py`: the form-value converters, the `/config` route's
 * transposition of per-field lists into per-ticker records, the settings it
 * reads with their defaults, the command menu, `/command` dispatch and the
 * log-file whitelist.
 */
module WebApp {
  import opened Common
  import Text
  import opened Registry
  import Commands

  /** `no_empty_str`. */
  function NoEmptyStr(data: string): (r: Option<string>)
    ensures r.None? <==> data == ""
    ensures r.Some? ==> r.value == data
  {
    if data == "" then None else Some(data)
  }

  /**
   * `no_empty_int`: "" gives `None`; otherwise `int(data)`, whose failure
   * is a `ValueError`.
   */
  function NoEmptyInt(data: string): (r: Result<Option<int>>)
    ensures data == "" ==> r == Ok(None)
    ensures data != "" && Text.ParseInt(data).None? ==> r == Err(ValueError)
    ensures r.Ok? && r.value.Some? ==> Text.ParseInt(data) == Some(r.value.value)
  {
    if data == "" then Ok(None)
    else match Text.ParseInt(data)
      case Some(v) => Ok(Some(v))
      case None => Err(ValueError)
  }

  /** A number the form writes back reads as itself. */
  lemma NoEmptyIntRoundTrip(i: int)
    ensures NoEmptyInt(Text.IntToString(i)) == Ok(Some(i))
  {
    Text.ParseIntOfIntToString(i);
  }

  /** White space typed around a number is ignored, as `int` ignores it. */
  lemma NoEmptyIntPadded(pre: string, i: int, post: string)
    requires forall k :: 0 <= k < |pre| ==> Text.IsSpace(pre[k])
    requires forall k :: 0 <= k < |post| ==> Text.IsSpace(post[k])
    ensures NoEmptyInt(pre + Text.IntToString(i) + post) == Ok(Some(i))
  {
    Text.ParsePaddedInt(pre, i, post);
    assert |Text.IntToString(i)| >= 1;
  }

  /** A field of blanks is not empty, so it reaches `int` and raises. */
  lemma NoEmptyIntBlank()
    ensures NoEmptyInt(" ") == Err(ValueError)
  {
    assert Text.TrimStart(" ") == "" by { assert " "[1..] == ""; }
  }

  /** `str_to_bool`: only "1" and "0" are booleans. */
  function StrToBool(data: string): (r: Option<bool>)
    ensures r == Some(true) <==> data == "1"
    ensures r == Some(false) <==> data == "0"
    ensures r.None? <==> data != "1" && data != "0"
  {
    if data == "1" then Some(true)
    else if data == "0" then Some(false)
    else None
  }

  /** "on", the value a checked HTML checkbox sends, is not a boolean here. */
  lemma CheckboxOnIsNotABool()
    ensures StrToBool("on") == None && StrToBool("") == None
  {
  }

  /** The per-field lists of the ticker form, in the order the route reads them. */
  const TickerFields: seq<string> := [
    "symbol", "symbol_type", "plot_type", "interval", "lookback",
    "wait_time", "mav", "volume", "avg_buy_price", "prepost"
  ]

  /** The length of the shortest list; `zip` stops there. */
  function MinLength<T>(lists: seq<seq<T>>): (n: nat)
    requires |lists| > 0
    ensures forall j :: 0 <= j < |lists| ==> n <= |lists[j]|
    ensures exists j :: 0 <= j < |lists| && n == |lists[j]|
  {
    if |lists| == 1 then |lists[0]|
    else
      var m := MinLength(lists[1..]);
      if |lists[0]| <= m then |lists[0]| else m
  }

  /** `zip(*lists)`: tuple i holds element i of every list. */
  function Transpose<T>(lists: seq<seq<T>>): (rows: seq<seq<T>>)
    ensures |lists| == 0 ==> rows == []
    ensures |lists| > 0 ==> |rows| == MinLength(lists)
    ensures forall i :: 0 <= i < |rows| ==> |rows[i]| == |lists|
    ensures forall i, j :: 0 <= i < |rows| && 0 <= j < |lists| ==> rows[i][j] == lists[j][i]
  {
    if |lists| == 0 then []
    else seq(MinLength(lists), i requires 0 <= i < MinLength(lists) =>
               seq(|lists|, j requires 0 <= j < |lists| => lists[j][i]))
  }

  /** `dict(zip(keys, vals))`: pairs up to the shorter length, a later key overwriting an earlier one. */
  function ZipDict<T>(keys: seq<string>, vals: seq<T>): (d: map<string, T>)
    ensures forall k :: k in d <==> exists j :: 0 <= j < |keys| && j < |vals| && keys[j] == k
    decreases |keys|
  {
    var n := if |keys| <= |vals| then |keys| else |vals|;
    if n == 0 then map[]
    else ZipDict(keys[..n - 1], vals[..n - 1])[keys[n - 1] := vals[n - 1]]
  }

  /** With distinct keys every key is paired with the value at its own position. */
  lemma {:induction false} ZipDictAt<T>(keys: seq<string>, vals: seq<T>, j: nat)
    requires forall a, b :: 0 <= a < b < |keys| ==> keys[a] != keys[b]
    requires j < |keys| && j < |vals|
    ensures keys[j] in ZipDict(keys, vals) && ZipDict(keys, vals)[keys[j]] == vals[j]
    decreases |keys|
  {
    var n := if |keys| <= |vals| then |keys| else |vals|;
    if j < n - 1 {
      ZipDictAt(keys[..n - 1], vals[..n - 1], j);
    }
  }

  /**
   * The records the `/config` route builds: one per position up to the
   * shortest list, each mapping every field to that position's value.
   */
  function Records<T>(fields: seq<string>, lists: seq<seq<T>>): (recs: seq<map<string, T>>)
    requires |fields| == |lists|
    ensures |lists| > 0 ==> |recs| == MinLength(lists)
    ensures forall i :: 0 <= i < |recs| ==> recs[i].Keys == set j | 0 <= j < |fields| :: fields[j]
  {
    var rows := Transpose(lists);
    seq(|rows|, i requires 0 <= i < |rows| => ZipDict(fields, rows[i]))
  }

  lemma TickerFieldsDistinct()
    ensures forall a, b :: 0 <= a < b < |TickerFields| ==> TickerFields[a] != TickerFields[b]
  {
    var f := TickerFields;
    assert |f[0]| == 6 && |f[1]| == 11 && |f[2]| == 9 && |f[3]| == 8 && |f[4]| == 8;
    assert |f[5]| == 9 && |f[6]| == 3 && |f[7]| == 6 && |f[8]| == 13 && |f[9]| == 7;
    assert f[3][0] == 'i' && f[4][0] == 'l' && f[2][0] == 'p' && f[5][0] == 'w';
    assert f[0][0] == 's' && f[7][0] == 'v';
  }

  /**
   * Ticker i of the form takes element i of every list, so reading one field
   * back across the records gives that field's list cut to the shortest length.
   */
  lemma {:induction false} RecordsColumns<T>(fields: seq<string>, lists: seq<seq<T>>, j: nat)
    requires |fields| == |lists| && j < |fields|
    requires forall a, b :: 0 <= a < b < |fields| ==> fields[a] != fields[b]
    ensures var recs := Records(fields, lists);
            (forall i :: 0 <= i < |recs| ==> fields[j] in recs[i]) &&
            seq(|recs|, i requires 0 <= i < |recs| => recs[i][fields[j]]) == lists[j][..|recs|]
  {
    var recs := Records(fields, lists);
    var rows := Transpose(lists);
    forall i | 0 <= i < |recs|
      ensures fields[j] in recs[i] && recs[i][fields[j]] == lists[j][i]
    {
      ZipDictAt(fields, rows[i], j);
    }
  }

  /** The ticker-independent settings of the `/config` route. */
  datatype Settings = Settings(
    apiKey: Option<string>, flip: bool, epdModel: string,
    skipOutdated: bool, skipEmpty: bool)

  /**
   * Applies the route's defaults to the arguments as `request.args.get`
   * returns them after conversion (`None` when absent).
   */
  function ConfigSettings(apiKey: Option<string>, flip: Option<bool>, epdModel: Option<string>,
                          skipOutdated: Option<bool>, skipEmpty: Option<bool>): (s: Settings)
    ensures apiKey.None? || apiKey == Some("") <==> s.apiKey.None?
    ensures s.apiKey.Some? ==> apiKey == s.apiKey
    ensures epdModel.None? ==> s.epdModel == "EPD_v3"
    ensures epdModel.Some? ==> s.epdModel == epdModel.value
    ensures s.flip <==> flip == Some(true)
    ensures s.skipOutdated <==> skipOutdated == Some(true)
    ensures !s.skipEmpty <==> skipEmpty == Some(false)
  {
    Settings(
      if apiKey.None? then None else NoEmptyStr(apiKey.value),
      if flip.None? then false else flip.value,
      if epdModel.None? then "EPD_v3" else epdModel.value,
      if skipOutdated.None? then false else skipOutdated.value,
      if skipEmpty.None? then true else skipEmpty.value)
  }

  /** The command menu: every registered command except "update", with its description. */
  function Menu<F>(reg: Reg<F>): (m: map<string, Option<string>>)
    ensures forall k :: k in m <==> k in reg && k != "update"
    ensures forall k :: k in m ==> m[k] == reg[k].desc
  {
    map k | k in reg && k != "update" :: reg[k].desc
  }

  /**
   * `app.py` keys the menu on each entry's `name`; in a registry built by
   * `register` every key is its entry's name, so keying on the registry
   * key gives the same dictionary.
   */
  lemma MenuKeyedByName<F>(reg: Reg<F>, k: string)
    requires Registry.Consistent(reg)
    ensures k in Menu(reg) <==> (exists j :: j in reg && reg[j].name == k) && k != "update"
    ensures k in Menu(reg) ==> exists j :: j in reg && reg[j].name == k && Menu(reg)[k] == reg[j].desc
  {
    if k in reg {
      assert reg[k].name == k;
    }
  }

  /** With the built-in commands the menu offers all of them but "update". */
  lemma BuiltinMenu(fs: seq<PyFunc<Commands.CommandBody>>, k: string)
    requires fs == Commands.Builtins
    ensures k in Menu(RegisterAll(map[], fs)) <==>
              k != "update" && k in ["restart", "refresh", "reboot", "wifi reset", "update", "default"]
  {
    Commands.CommandsKeys(fs, k);
  }

  /** `/command`: the entry started in a new thread, if any. */
  function CommandToRun<F>(reg: Reg<F>, command: Option<string>): (r: Option<Entry<F>>)
    ensures r.Some? <==> command.Some? && command.value != "" && command.value in reg
    ensures r.Some? ==> r.value == reg[command.value]
  {
    match command
    case Some(c) => if c != "" && c in reg then Some(reg[c]) else None
    case None => None
  }

  /** "update" is hidden from the menu but still runs when asked for by name. */
  lemma UpdateRunsButIsHidden<F>(reg: Reg<F>)
    requires "update" in reg
    ensures "update" !in Menu(reg)
    ensures CommandToRun(reg, Some("update")) == Some(reg["update"])
  {
  }

  /** The log names listed at app creation: the directory's files ending in ".log". */
  function LogFiles(dirNames: set<string>): (names: set<string>)
    ensures forall n :: n in names <==> n in dirNames && |n| >= 4 && n[|n| - 4..] == ".log"
  {
    set n | n in dirNames && |n| >= 4 && n[|n| - 4..] == ".log"
  }

  datatype LogResponse = NotFound | Served(name: string)

  /**
   * `/get-log/<name>`: served only when the name was listed at app creation
   * and the file is still there when asked for; otherwise 404.
   */
  function SendLog(listed: set<string>, onDisk: set<string>, name: string): (r: LogResponse)
    ensures r == Served(name) <==> name in listed && name in onDisk
    ensures r.NotFound? <==> name !in listed || name !in onDisk
  {
    if name !in listed then NotFound
    else if name in onDisk then Served(name)
    else NotFound
  }

  /** A log file created after the app started is never served. */
  lemma LateLogNeverServed(dirAtStart: set<string>, onDisk: set<string>, name: string)
    requires name !in dirAtStart
    ensures SendLog(LogFiles(dirAtStart), onDisk, name) == NotFound
  {
  }
}
