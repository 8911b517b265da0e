/**
 * `web/web.py`, the older Flask front end: its `/config` route turns the
 * query arguments into a config dict, and its `/command` route looks the
 * command up in `COMMANDS` and calls what it finds.
 */
module LegacyWeb {
  import opened Common
  import opened Registry
  import WebApp

  /** The values the route stores: the argument string, `None`, or a boolean. */
  datatype ArgValue = Str(s: string) | Null | Bool(b: bool)

  /**
   * `/config`. `args` holds the first value of every query argument, which
   * is what `request.args.items()` yields.
   */
  function NormaliseArgs(args: map<string, string>): (config: map<string, ArgValue>)
    ensures config.Keys == args.Keys + {"flip"}
    ensures "lookback" in args && args["lookback"] == "" ==> config["lookback"] == Null
    ensures config["flip"] == Bool("flip" in args)
    ensures forall k :: k in args && k != "flip" && !(k == "lookback" && args[k] == "") ==>
              config[k] == Str(args[k])
  {
    var config := map k | k in args ::
      if k == "lookback" && args[k] == "" then Null
      else if k == "flip" then Bool(true)
      else Str(args[k]);
    if "flip" in config then config else config["flip" := Bool(false)]
  }

  /** Whatever value the flip checkbox sends, even "" or "0", it reads as `True`. */
  lemma FlipPresenceIsTrue(args: map<string, string>)
    requires "flip" in args
    ensures NormaliseArgs(args)["flip"] == Bool(true)
  {
  }

  /** With "flip" present and no empty value, every other argument is kept as its string. */
  lemma NonEmptyArgsKeptAsStrings(args: map<string, string>)
    requires "flip" in args && forall k :: k in args ==> args[k] != ""
    ensures NormaliseArgs(args) == map k | k in args :: if k == "flip" then Bool(true) else Str(args[k])
  {
  }

  /**
   * `/command`, as written: an empty or unknown name calls the no-op lambda;
   * a registered name calls the stored `Command` record, which is not
   * callable, so the request fails with `TypeError`.
   */
  function RunCommandAsWritten<F>(reg: Reg<F>, command: Option<string>): (r: Result<Option<Entry<F>>>)
    ensures r.Ok? ==> r.value.None?
    ensures r.Err? <==> command.Some? && command.value != "" && command.value in reg
    ensures r.Err? ==> r.error == TypeError
  {
    match command
    case Some(c) =>
      if c == "" then Ok(None)
      else if c in reg then Err(TypeError)
      else Ok(None)
    case None => Ok(None)
  }

  /** An unknown command name runs nothing and succeeds. */
  lemma UnknownCommandIsNoOp<F>(reg: Reg<F>, c: string)
    requires c !in reg
    ensures RunCommandAsWritten(reg, Some(c)) == Ok(None)
  {
  }

  /** Every registered command fails instead of running: "restart" is one. */
  lemma RegisteredCommandFails<F>(reg: Reg<F>)
    requires "restart" in reg
    ensures RunCommandAsWritten(reg, Some("restart")) == Err(TypeError)
  {
  }

  /**
   * The intended behaviour is `WebApp.CommandToRun`, what `app.py` does. The
   * two agree on every request that does not name a registered command, and
   * on those the intended one runs the command where this one fails.
   */
  lemma AsWrittenVersusIntended<F>(reg: Reg<F>, command: Option<string>)
    ensures RunCommandAsWritten(reg, command).Ok? <==> WebApp.CommandToRun(reg, command).None?
    ensures RunCommandAsWritten(reg, command).Err? ==>
              WebApp.CommandToRun(reg, command) == Some(reg[command.value])
  {
  }
}
