/**
 * `web/command.py`: the commands offered by the web interface, their
 * registration, and what each one asks of the host when run.
 */
module Commands {
  import opened Common
  import opened Registry

  /** The bodies of the six registered functions. */
  datatype CommandBody = Restart | Refresh | Reboot | WifiReset | Update | Default

  datatype Signal = SIGUSR1 | SIGUSR2

  /** What a command asks of the host, in order. */
  datatype Effect =
    | Kill(pid: int, sig: Signal)
    | Shell(cmd: string)
    | Pip(args: seq<string>)
    | WriteDefaultConfig

  /**
   * The host state a command observes: the pid recorded in the PID file, if
   * that file exists (its first line read as a number), and whether pip
   * fails when given the system-packages flag.
   */
  datatype Host = Host(pid: Option<int>, pipFailsWithFlag: bool)

  const PipArgs: seq<string> := ["install", "--upgrade", "tinyticker"]
  const SystemPackagesFlag: string := "--break-system-packages"

  /** The effects of signalling the running tinyticker process, if any. */
  function SignalTinyticker(host: Host, sig: Signal): (r: seq<Effect>)
    ensures host.pid.None? <==> r == []
    ensures host.pid.Some? ==> r == [Kill(host.pid.value, sig)]
  {
    match host.pid
    case None => []
    case Some(pid) => [Kill(pid, sig)]
  }

  /** Commands that call other commands rank above the ones they call. */
  function Rank(body: CommandBody): nat
  {
    if body == WifiReset || body == Default then 1 else 0
  }

  /** Running a command body. */
  function Run(body: CommandBody, host: Host): (r: seq<Effect>)
    ensures body == Restart ==> r == SignalTinyticker(host, SIGUSR1)
    ensures body == Refresh ==> r == SignalTinyticker(host, SIGUSR2)
    ensures body == Update ==> |r| >= 1 && r[0] == Pip(PipArgs + [SystemPackagesFlag])
    ensures body == Update ==> (|r| == 2 <==> host.pipFailsWithFlag)
    ensures body == Update && |r| == 2 ==> r[1] == Pip(PipArgs)
    decreases Rank(body)
  {
    match body
    case Restart => SignalTinyticker(host, SIGUSR1)
    case Refresh => SignalTinyticker(host, SIGUSR2)
    case Reboot => [Shell("sudo reboot")]
    case WifiReset => [Shell("sudo comitup-cli d")] + Run(Reboot, host)
    case Update =>
      [Pip(PipArgs + [SystemPackagesFlag])] + (if host.pipFailsWithFlag then [Pip(PipArgs)] else [])
    case Default => [WriteDefaultConfig] + Run(Refresh, host)
  }

  /** `wifi_reset` forgets the comitup connection and then reboots. */
  lemma WifiResetThenReboots(host: Host)
    ensures Run(WifiReset, host) == [Shell("sudo comitup-cli d"), Shell("sudo reboot")]
    ensures Run(WifiReset, host)[1..] == Run(Reboot, host)
  {
  }

  /** `default` writes the default config and then asks the ticker process to refresh. */
  lemma DefaultThenRefreshes(host: Host)
    ensures Run(Default, host)[0] == WriteDefaultConfig
    ensures Run(Default, host)[1..] == Run(Refresh, host)
    ensures host.pid.Some? ==> Run(Default, host)[1..] == [Kill(host.pid.value, SIGUSR2)]
  {
  }

  /** The decorated functions of the module, in source order. */
  const Builtins: seq<PyFunc<CommandBody>> := [
    PyFunc(Restart, "restart", Some("Restart the tinyticker process.")),
    PyFunc(Refresh, "refresh", Some("Refresh tinyticker's ticker process.")),
    PyFunc(Reboot, "reboot", Some("Reboot the  RPi, requires sudo.")),
    PyFunc(WifiReset, "wifi_reset", Some("Reset the RPi's comitup settings, requires sudo.")),
    PyFunc(Update, "update", Some("Update tinyticker with pip.")),
    PyFunc(Default, "default", Some("Write the default config."))
  ]

  lemma BuiltinNames()
    ensures Names(Builtins) == ["restart", "refresh", "reboot", "wifi reset", "update", "default"]
  {
    var expected := ["restart", "refresh", "reboot", "wifi reset", "update", "default"];
    forall i | 0 <= i < 6
      ensures Names(Builtins)[i] == expected[i]
    {
      BuiltinNameAt(i);
    }
  }

  lemma BuiltinNameAt(i: nat)
    requires i < 6
    ensures Names(Builtins)[i] == ["restart", "refresh", "reboot", "wifi reset", "update", "default"][i]
  {
    if i == 3 {
      DisplayNameIs("wifi_reset", "wifi reset");
    } else {
      DisplayNameIs(Builtins[i].name, Builtins[i].name);
    }
  }

  /*
   * `COMMANDS` after import is `RegisterAll(map[], Builtins)`. The lemmas
   * below take the decorated functions as a parameter equal to `Builtins`,
   * which keeps the solver from evaluating the whole registration eagerly.
   */

  /** After import the registry holds exactly the six built-in commands. */
  lemma CommandsKeys(fs: seq<PyFunc<CommandBody>>, k: string)
    requires fs == Builtins
    ensures k in RegisterAll(map[], fs) <==> k in ["restart", "refresh", "reboot", "wifi reset", "update", "default"]
  {
    RegisterAllKeys(map[], fs);
    BuiltinNames();
    assert Names(fs) == ["restart", "refresh", "reboot", "wifi reset", "update", "default"];
  }

  /** No two built-in functions share a display name. */
  lemma BuiltinNamesDistinct()
    ensures forall i, j :: 0 <= i < j < |Builtins| ==> Names(Builtins)[i] != Names(Builtins)[j]
  {
    BuiltinNames();
    SixDistinct(Names(Builtins));
  }

  lemma SixDistinct(n: seq<string>)
    requires n == ["restart", "refresh", "reboot", "wifi reset", "update", "default"]
    ensures forall i, j :: 0 <= i < j < |n| ==> n[i] != n[j]
  {
    assert |n[0]| == 7 && n[0][0] == 'r' && n[0][2] == 's';
    assert |n[1]| == 7 && n[1][0] == 'r' && n[1][2] == 'f';
    assert |n[2]| == 6 && n[2][0] == 'r';
    assert |n[3]| == 10;
    assert |n[4]| == 6 && n[4][0] == 'u';
    assert |n[5]| == 7 && n[5][0] == 'd';
  }

  /**
   * Every built-in command is stored under its display name with its own
   * function and its docstring as description.
   */
  lemma CommandsEntries(fs: seq<PyFunc<CommandBody>>)
    requires fs == Builtins
    ensures forall i :: 0 <= i < |fs| ==>
              Names(fs)[i] in RegisterAll(map[], fs) &&
              RegisterAll(map[], fs)[Names(fs)[i]] == Entry(fs[i], Names(fs)[i], fs[i].doc)
  {
    BuiltinNamesDistinct();
    RegisterAllEntries(map[], fs);
  }
}
