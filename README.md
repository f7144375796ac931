# ConsoleSystemTray, modelled in Dafny

ConsoleSystemTray starts a program, hides its own console window and keeps a
tray icon for the child until the child ends, then exits too. This project
models the decision rules in `ConsoleSystemTray/Program.cs`, with the option
record of `ConsoleSystemTray/Options.cs`:

- `Config` (config.dfy): the `Options` property bag. Its strings are nullable:
  `None` stands for a .NET null. A .NET string's text is a sequence of UTF-16
  code units, the unit in which .NET measures and cuts strings.
- `TrayText` (tray_text.dfy): the tray label. A non-empty tip is used as it
  is. Otherwise the child's window title is used, cut to its trailing 63
  UTF-16 code units (the cut can fall inside a surrogate pair, as in .NET).
- `StartRequest` (start_request.dfy): the process start request, built field
  by field. `FileName` and `ErrorDialog` are always set. `Arguments` and
  `WorkingDirectory` are set only when the option is non-empty.
- `Visibility` (visibility.dfy): `SwitchWindow`'s hide-then-show policy, on a
  `Window` object that records every `ShowWindow` call in order.
- `Lifecycle` (lifecycle.dfy): how the two lifetimes are coupled. A
  `Supervision` object's methods play the child's `Exited` handler and the
  supervisor's `ProcessExit` handler. A pure `Step`/`Replay` state machine
  specifies them, and lemmas hold over every sequence of events.
- `Program` (program.dfy): `Main`'s dispatch (`Dispatch`, over the parsed
  command-line map) and the start-up sequence `Run`.

Environment inputs become parameters:

- the parsed command line: `Utils.GetCommondLines` is not part of this model;
- the window title read after the 500 ms delay;
- whether `Run` throws;
- whether the operating system refuses to kill the child;
- the visibility of each window handle.

`ShowWindow`'s result follows its documented Win32 meaning: true exactly when
the window was visible before the call, and false for a handle that names no
window. The policy itself (`SwitchPlan`) is stated over the raw result of the
hide, so it does not depend on this reading.

`GetArgument` (in the `Utils` file, which is not part of this model) is read
as follows: a flag followed by a value yields that value. Otherwise the call
fails when `allowMissing` is false and yields null when it is true. The failure
is the `CmdArgumentException` that `Main` catches.

## Model

| member | source | states |
|---|---|---|
| `TrayText.GetTrayText` | ConsoleSystemTray/Program.cs:110-118 | The result has at most 63 UTF-16 code units, has length min(\|title\|, 63), and is a suffix of the title |
| `TrayText.CutCanSplitSurrogatePair` | ConsoleSystemTray/Program.cs:114-115 | A title of 40 surrogate pairs (80 code units) is cut to 63 units that begin with the second half of a pair |
| `TrayText.ShortTitleUnchanged` | ConsoleSystemTray/Program.cs:114 | A title of at most 63 code units, including exactly 63, is returned unchanged |
| `TrayText.LongTitleKeepsTail` | ConsoleSystemTray/Program.cs:114-115 | A title over 63 code units yields exactly its last 63 code units |
| `TrayText.GetTrayTextIdempotent` | ConsoleSystemTray/Program.cs:111-117 | Cutting an already cut title changes nothing |
| `TrayText.PrefixIgnored` | ConsoleSystemTray/Program.cs:115 | For a title of at least 63 code units, any text in front of it does not change the tray text |
| `TrayText.TrayLabel` | ConsoleSystemTray/Program.cs:93 | A non-empty tip is the label verbatim. Otherwise the label is exactly `GetTrayText(title)`: a suffix of the title of at most 63 code units, the whole title when it fits |
| `TrayText.TipIgnoresTitle` | ConsoleSystemTray/Program.cs:93 | With a non-empty tip, the window title has no influence on the label, so no title is needed |
| `TrayText.LabelBound` | ConsoleSystemTray/Program.cs:93 | The label has at most 63 code units unless it is the tip |
| `TrayText.LongTipNotCut` | ConsoleSystemTray/Program.cs:93 | A tip longer than 63 code units reaches the tray unshortened |
| `StartRequest.NewStartInfo` | ConsoleSystemTray/Program.cs:74-83 | FileName is the path and ErrorDialog is true. Arguments is set iff the option is non-null and non-empty, and then equals it. The same holds for WorkingDirectory and the base directory |
| `StartRequest.EffectiveFields` | ConsoleSystemTray/Program.cs:78-83 | The request's effective arguments and working directory are the options' text, with null read as empty, as an unconditional copy would give |
| `Visibility.AfterShowWindow` | ConsoleSystemTray/Program.cs:138-141 | A call on a real window leaves it shown for SW_SHOW and hidden for SW_HIDE. A handle naming no window is unaffected |
| `Visibility.Window.ShowWindow` | ConsoleSystemTray/Program.cs:137-141 | Reports whether the window was visible before the call, applies the command and appends it to the call history |
| `Visibility.SwitchPlan` | ConsoleSystemTray/Program.cs:143-148 | The first call is always a hide. A show is issued iff the hide failed. There is exactly one hide and at most one show |
| `Visibility.SwitchWindow` | ConsoleSystemTray/Program.cs:143-148 | The calls made are exactly the hide followed, only if the hide failed, by one show. The window ends in the switched state |
| `Visibility.SwitchFlips` | ConsoleSystemTray/Program.cs:143-148 | A shown window ends hidden and a hidden window ends shown. A handle naming no window is untouched |
| `Visibility.SwitchTwice` | ConsoleSystemTray/Program.cs:143-148 | Two switches in a row restore the window's original state |
| `Visibility.ActivationsParity` | ConsoleSystemTray/Program.cs:101-103 | After n double-clicks on the tray icon, the child's window is as it was if n is even and switched if n is odd |
| `Lifecycle.Supervision.ExitAtSame` | ConsoleSystemTray/Program.cs:127-135 | After registration the child is running, the supervisor is active and no kill has been tried |
| `Lifecycle.Supervision.Kill` | ConsoleSystemTray/Program.cs:122 | The kill succeeds iff the child was running and the system allows it. Only then does the child end. Each call is counted |
| `Lifecycle.Supervision.ExitProcess` | ConsoleSystemTray/Program.cs:120-125 | The ProcessExit handler tries one kill and never fails. The supervisor's state is unchanged |
| `Lifecycle.Supervision.EnvironmentExit` | ConsoleSystemTray/Program.cs:130-134 | An exit request of an active supervisor runs the kill hook, then ends with the requested code. Otherwise the request does nothing. This is the `Step` for `ExitRequest` |
| `Lifecycle.Supervision.OnChildExited` | ConsoleSystemTray/Program.cs:129-131 | The child's exit drives the supervisor's exit with code 0. This is the `Step` for `ChildExit` |
| `Lifecycle.Step` | ConsoleSystemTray/Program.cs:127-135 | One event between handlers: once the supervisor is no longer active nothing changes its exit or repeats the kill; an active supervisor that gets an exit request, or whose running child exits, terminates (code 0 for the child's exit, else the requested code) after exactly one kill attempt; an exited child stays exited |
| `Lifecycle.StartInv` | ConsoleSystemTray/Program.cs:127-135 | The invariant holds right after the hooks are registered |
| `Lifecycle.StepInv` | ConsoleSystemTray/Program.cs:120-135 | Every event preserves the invariant: no exit is left half done, a kill has been tried iff the supervisor has exited, and an active supervisor has a running child |
| `Lifecycle.ReplayInv` | ConsoleSystemTray/Program.cs:120-135 | The invariant holds after any sequence of events |
| `Lifecycle.AtMostOneKill` | ConsoleSystemTray/Program.cs:120-135 | Whatever events arrive, the child is killed at most once |
| `Lifecycle.ChildExitExitsZero` | ConsoleSystemTray/Program.cs:129-131 | The child's exit makes an active supervisor exit with code 0. The kill it then tries fails without effect |
| `Lifecycle.ExitRequestCompletes` | ConsoleSystemTray/Program.cs:120-134 | A supervisor exit always completes with its code after exactly one kill attempt. The child has ended iff the kill was not refused |
| `Lifecycle.TerminatedIsFinal` | ConsoleSystemTray/Program.cs:127-135 | Once the supervisor has exited, no later event changes its exit code or repeats the kill |
| `Lifecycle.FirstEventDecides` | ConsoleSystemTray/Program.cs:127-135 | The exit code is 0 if the child ended first, and otherwise the code of the first exit request |
| `Lifecycle.ActiveUntilFirstEvent` | ConsoleSystemTray/Program.cs:127-135 | The supervisor stays active exactly as long as no event has happened |
| `Program.GetArgument` | ConsoleSystemTray/Program.cs:38-42 | Fails, naming the flag, iff the flag has no value and missing values are not allowed. Otherwise it returns the flag's value, or null when there is none |
| `Program.ResolveOptions` | ConsoleSystemTray/Program.cs:36-45 | Fails iff -p has no value. Otherwise the path is -p's value, the optional strings are non-null iff given, Arguments, BaseDirectory, Icon and Tip are what `GetArgument(…, true)` gives for -a, -d, -i and -t, and IsPreventSleep / IsStartMinimized are exactly the presence of -s / -m |
| `Program.Dispatch` | ConsoleSystemTray/Program.cs:27-58 | No arguments gives help, code -1 and no launch. -h gives help, no launch and code 0. Run is called iff there are arguments, no -h and -p has a value, and it gets the resolved options. The code is -1 iff there are no arguments, -p is missing or Run throws. Help is shown iff there are no arguments, -h is given or -p is missing |
| `Program.Run` | ConsoleSystemTray/Program.cs:66-108 | Builds the start request (FileName the path, ErrorDialog on, Arguments and WorkingDirectory set to the option's value iff it is non-empty) and couples the lifetimes (fresh, both running). It switches the console window once, switches the child's window iff start-minimized, and shows a visible tray whose text and balloon texts are all the tray label |

## Left out

- Win32 calls are foreign calls. `ShowWindow` is modelled by its documented effect (`AfterShowWindow`) and its result, true exactly when the window was visible before the call (`ShowWindowResult`). `GetConsoleWindow` and `SetThreadExecutionState` are not modelled. Sleep prevention (Program.cs:89-91) and its `EXECUTION_STATE` flag bits are not modelled.
- `Process.Start`, `Process.Kill`, and the reads of `MainWindowTitle` and `MainWindowHandle` are operating-system I/O. The title, the window handles and a refused kill are inputs. The 500 ms `Thread.Sleep` before the title read is timing and is not modelled.
- Icon loading (`new Icon`, `ExtractAssociatedIcon`, Program.cs:67-72), `NotifyIcon` rendering and `Application.Run` are user-interface plumbing. Their failures appear only as `Dispatch`'s `runFaults` input.
- Help text contents and console output formatting are not modelled. `Dispatch` only records whether help or an error was printed.
- The tokenizer `Utils.GetCommondLines` and the body of `GetArgument` are not part of this model. The parsed command line is an input map, and `GetArgument`'s behaviour is the reading given above.
- Concurrent or overlapping delivery of the `Exited` and `ProcessExit` events is not modelled. Events are sequential transitions. An `Exited` notification caused by the hook's own kill arrives while the supervisor is exiting and is modelled as having no effect.
- A child that exits before `ExitAtSame` registers its handlers is not modelled. The lifecycle starts after registration.
- `Program.Run`: does not model a throw part-way through. That case is only `Dispatch`'s `runFaults`.
- The `Exited` handler's code 0 overrides any exit code set earlier. Exit codes of a launched run come from `Lifecycle`, not from `Dispatch`, whose `exitCode` is the value `Main` itself leaves.
- The label bound of 63 code units applies only to the derived title. A tip is used verbatim (Program.cs:93), whatever its length, as `LongTipNotCut` states. On .NET Framework the `NotifyIcon.Text` setter (Program.cs:96) refuses text over 63 characters, so such a tip makes `Run` throw after the child has started; `Main` then sets exit code -1 and the exit hook kills the child. The model shows this case only as `Dispatch`'s `runFaults`.
