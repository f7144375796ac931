/**
 * The entry point and the start-up sequence (ConsoleSystemTray/Program.cs,
 * Main and Run). The command-line tokenizer is not part of this model: its
 * result is taken as a map from flag to the value given after it, if any.
 */
module Program {
  import opened Wrappers
  import opened Config
  import opened TrayText
  import opened StartRequest
  import opened Visibility
  import opened Lifecycle

  /**
   * The parsed command line: each flag present, with its value when one was given.
   * Flags are compared as the ASCII literals Main names (-p, -a, ...), so they stay plain strings.
   */
  type CmdLines = map<string, Option<DotNetString>>

  /** The flag was given together with a value. */
  predicate HasValue(cmds: CmdLines, flag: string) {
    flag in cmds && cmds[flag].Some?
  }

  /**
   * A flag's value. A flag without a value is an error (naming the flag)
   * unless allowMissing, in which case the value is null.
   */
  function GetArgument(cmds: CmdLines, flag: string, allowMissing: bool): (r: Result<NullableString, string>)
    ensures r.Failure? <==> !allowMissing && !HasValue(cmds, flag)
    ensures r.Failure? ==> r.error == flag
    ensures r.Success? ==> (r.value.Some? <==> HasValue(cmds, flag))
    ensures r.Success? && r.value.Some? ==> r.value.value == cmds[flag].value
  {
    if HasValue(cmds, flag) then Success(cmds[flag])
    else if allowMissing then Success(None)
    else Failure(flag)
  }

  /** The options Main builds; only the required -p can make it fail. */
  function ResolveOptions(cmds: CmdLines): (r: Result<Options, string>)
    ensures r.Failure? <==> !HasValue(cmds, "-p")
    ensures r.Failure? ==> r.error == "-p"
    ensures r.Success? ==> r.value.path == cmds["-p"] && r.value.path.Some?
    ensures r.Success? ==> r.value.isPreventSleep == ("-s" in cmds)
    ensures r.Success? ==> r.value.isStartMinimized == ("-m" in cmds)
    ensures r.Success? ==> (r.value.tip.Some? <==> HasValue(cmds, "-t"))
    ensures r.Success? ==> (r.value.arguments.Some? <==> HasValue(cmds, "-a"))
    ensures r.Success? ==> (r.value.baseDirectory.Some? <==> HasValue(cmds, "-d"))
    ensures r.Success? ==> (r.value.icon.Some? <==> HasValue(cmds, "-i"))
    ensures r.Success? ==> GetArgument(cmds, "-a", true) == Success(r.value.arguments)
    ensures r.Success? ==> GetArgument(cmds, "-d", true) == Success(r.value.baseDirectory)
    ensures r.Success? ==> GetArgument(cmds, "-i", true) == Success(r.value.icon)
    ensures r.Success? ==> GetArgument(cmds, "-t", true) == Success(r.value.tip)
  {
    match GetArgument(cmds, "-p", false)
    case Failure(flag) => Failure(flag)
    case Success(path) =>
      Success(Options(
        path,
        GetArgument(cmds, "-a", true).value,
        GetArgument(cmds, "-d", true).value,
        GetArgument(cmds, "-i", true).value,
        GetArgument(cmds, "-t", true).value,
        "-s" in cmds,
        "-m" in cmds))
  }

  /**
   * What Main did: whether it printed the usage text, whether it printed an
   * error, the options Run was called with (if it was), and the exit code it
   * left (0 unless set; a launched child's exit code comes from the lifecycle).
   */
  datatype Outcome = Outcome(helpShown: bool, errorShown: bool, run: Option<Options>, exitCode: int)

  /**
   * Main, given the raw arguments, their parse, and whether Run threw
   * (a bad icon, a failed launch, ...).
   */
  function Dispatch(args: seq<string>, cmds: CmdLines, runFaults: bool): (r: Outcome)
    ensures |args| == 0 ==> r == Outcome(true, false, None, -1)
    ensures |args| > 0 && "-h" in cmds ==> r == Outcome(true, false, None, 0)
    ensures r.run.Some? <==> |args| > 0 && "-h" !in cmds && HasValue(cmds, "-p")
    ensures r.run.Some? ==> ResolveOptions(cmds) == Success(r.run.value)
    ensures r.exitCode == 0 || r.exitCode == -1
    ensures r.exitCode == -1 <==> |args| == 0 || ("-h" !in cmds && (!HasValue(cmds, "-p") || runFaults))
    ensures r.helpShown <==> |args| == 0 || "-h" in cmds || !HasValue(cmds, "-p")
    ensures r.errorShown <==> |args| > 0 && "-h" !in cmds && (!HasValue(cmds, "-p") || runFaults)
  {
    if |args| == 0 then
      Outcome(true, false, None, -1)
    else if "-h" in cmds then
      Outcome(true, false, None, 0)
    else
      match ResolveOptions(cmds)
      case Failure(_) => Outcome(true, true, None, -1)
      case Success(options) =>
        if runFaults then Outcome(false, true, Some(options), -1)
        else Outcome(false, false, Some(options), 0)
  }

  /** The tray icon's texts and visibility. */
  datatype NotifyIcon = NotifyIcon(text: DotNetString, balloonTipTitle: DotNetString, balloonTipText: DotNetString, visible: bool)

  /**
   * Run, from the start request to the tray icon: start the child and couple
   * the lifetimes, hide the console, label the tray, and with -m switch the
   * child's window. title is the child's window title once read.
   */
  method Run(options: Options, console: Window, mainWindow: Window, title: DotNetString)
    returns (request: StartInfo, life: Supervision, tray: NotifyIcon)
    requires console != mainWindow
    modifies console, mainWindow
    ensures request.fileName == options.path && request.errorDialog
    ensures request.arguments.Some? <==> !IsNullOrEmpty(options.arguments)
    ensures request.workingDirectory.Some? <==> !IsNullOrEmpty(options.baseDirectory)
    ensures request.arguments.Some? ==> request.arguments == options.arguments
    ensures request.workingDirectory.Some? ==> request.workingDirectory == options.baseDirectory
    ensures fresh(life) && life.Snapshot() == Start
    ensures console.calls == old(console.calls) + SwitchPlan(ShowWindowResult(old(console.State())))
    ensures console.State() == Switched(old(console.State()))
    ensures mainWindow.calls == old(mainWindow.calls)
      + (if options.isStartMinimized then SwitchPlan(ShowWindowResult(old(mainWindow.State()))) else [])
    ensures mainWindow.State()
      == if options.isStartMinimized then Switched(old(mainWindow.State())) else old(mainWindow.State())
    ensures tray.visible && tray.text == TrayLabel(options.tip, title)
    ensures tray.balloonTipTitle == tray.text && tray.balloonTipText == tray.text
  {
    request := NewStartInfo(options);
    life := new Supervision.ExitAtSame();
    SwitchWindow(console);
    var text := TrayLabel(options.tip, title);
    tray := NotifyIcon(text, text, text, true);
    if options.isStartMinimized {
      SwitchWindow(mainWindow);
    }
  }
}
