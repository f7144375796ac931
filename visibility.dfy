/** Hide-then-show toggling of a window (ConsoleSystemTray/Program.cs, SwitchWindow). */
module Visibility {

  /** The two ShowWindow commands the program issues: SW_HIDE (0) and SW_SHOW (5). */
  datatype ShowCmd = Hide | Show

  /** What a window handle denotes: maybe no window at all, else a window that is shown or not. */
  datatype WindowState = WindowState(isWindow: bool, visible: bool)

  /**
   * ShowWindow's result: true when the window was visible before the call,
   * false when it was hidden or the handle denotes no window.
   */
  function ShowWindowResult(w: WindowState): bool {
    w.isWindow && w.visible
  }

  /** The window after one ShowWindow call. */
  function AfterShowWindow(w: WindowState, c: ShowCmd): (r: WindowState)
    ensures r.isWindow == w.isWindow
    ensures r.isWindow ==> r.visible == (c == Show)
    ensures !w.isWindow ==> r == w
  {
    if w.isWindow then w.(visible := c == Show) else w
  }

  /** The calls SwitchWindow makes, given what the hide reported. */
  function SwitchPlan(hideSucceeded: bool): (r: seq<ShowCmd>)
    ensures |r| >= 1 && r[0] == Hide
    ensures Show in r <==> !hideSucceeded
    ensures multiset(r)[Show] <= 1
    ensures multiset(r)[Hide] == 1
  {
    if hideSucceeded then [Hide] else [Hide, Show]
  }

  /** The window after a sequence of ShowWindow calls, in order. */
  function Perform(w: WindowState, cmds: seq<ShowCmd>): WindowState
    decreases cmds
  {
    if cmds == [] then w else Perform(AfterShowWindow(w, cmds[0]), cmds[1..])
  }

  /** The window after one SwitchWindow. */
  function Switched(w: WindowState): WindowState {
    Perform(w, SwitchPlan(ShowWindowResult(w)))
  }

  /** A shown window ends hidden, a hidden one ends shown, and a non-window is untouched. */
  lemma SwitchFlips(w: WindowState)
    ensures Switched(w).isWindow == w.isWindow
    ensures w.isWindow ==> Switched(w).visible == !w.visible
    ensures !w.isWindow ==> Switched(w) == w
  {
    if ShowWindowResult(w) {
      assert Switched(w) == Perform(AfterShowWindow(w, Hide), []);
    } else {
      var hidden := AfterShowWindow(w, Hide);
      assert Switched(w) == Perform(hidden, [Show]);
      assert Perform(hidden, [Show]) == Perform(AfterShowWindow(hidden, Show), []);
    }
  }

  /** Two switches in a row bring a window back to where it was. */
  lemma SwitchTwice(w: WindowState)
    ensures Switched(Switched(w)) == w
  {
    SwitchFlips(w);
    SwitchFlips(Switched(w));
  }

  /** The window after n activations of the tray icon, each one switching it. */
  function Activations(w: WindowState, n: nat): WindowState
    decreases n
  {
    if n == 0 then w else Activations(Switched(w), n - 1)
  }

  /** After n activations only the parity of n matters. */
  lemma {:induction false} ActivationsParity(w: WindowState, n: nat)
    decreases n
    ensures Activations(w, n) == if n % 2 == 0 then w else Switched(w)
  {
    if n > 0 {
      ActivationsParity(Switched(w), n - 1);
      SwitchTwice(w);
    }
  }

  /** A window handle with the history of ShowWindow calls made on it. */
  class Window {
    var isWindow: bool
    var visible: bool
    var calls: seq<ShowCmd>

    function State(): WindowState
      reads this
    {
      WindowState(isWindow, visible)
    }

    constructor (isWindow: bool, visible: bool)
      ensures State() == WindowState(isWindow, visible)
      ensures calls == []
    {
      this.isWindow := isWindow;
      this.visible := visible;
      calls := [];
    }

    /** One ShowWindow call on this handle. */
    method ShowWindow(c: ShowCmd) returns (success: bool)
      modifies this
      ensures success == ShowWindowResult(old(State()))
      ensures State() == AfterShowWindow(old(State()), c)
      ensures calls == old(calls) + [c]
    {
      success := isWindow && visible;
      if isWindow {
        visible := c == Show;
      }
      calls := calls + [c];
    }
  }

  /** Try to hide the window; only if the hide reports failure, show it. */
  method SwitchWindow(w: Window)
    modifies w
    ensures w.calls == old(w.calls) + SwitchPlan(ShowWindowResult(old(w.State())))
    ensures w.State() == Switched(old(w.State()))
  {
    ghost var before := w.State();
    var success := w.ShowWindow(Hide);
    if !success {
      var shown := w.ShowWindow(Show);
      assert SwitchPlan(false)[1..] == [Show];
      assert SwitchPlan(false)[1..][1..] == [];
    } else {
      assert SwitchPlan(true)[1..] == [];
    }
  }
}
