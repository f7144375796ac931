/**
 * Coupling of the supervisor's and the child's lifetimes
 * (ConsoleSystemTray/Program.cs, ExitAtSame and ExitProcess): the child's exit
 * makes the supervisor exit with code 0, and the supervisor's exit tries to
 * kill the child, ignoring a failed kill.
 */
module Lifecycle {

  datatype ChildState = Running | Exited

  /** The supervisor runs, is running its exit hooks with a code, or has exited with a code. */
  datatype SupervisorState = Active | Exiting(code: int) | Terminated(code: int)

  /**
   * What can happen from outside once the hooks are in place: the child ends
   * on its own, or the supervisor is asked to exit with a code (killDenied: the
   * operating system would refuse to kill the child).
   */
  datatype Event = ChildExit | ExitRequest(code: int, killDenied: bool)

  datatype State = State(child: ChildState, supervisor: SupervisorState, killAttempts: nat)

  /** Right after the child is started and both hooks are registered. */
  const Start := State(Running, Active, 0)

  /**
   * The supervisor's exit: the exit hook tries once to kill the child, which
   * succeeds only on a running child the system lets it kill; either way the
   * exit completes with the requested code.
   */
  function Teardown(s: State, code: int, killDenied: bool): State {
    State(if s.child.Running? && !killDenied then Exited else s.child,
          Terminated(code),
          s.killAttempts + 1)
  }

  /** One event, delivered between the handlers of other events. */
  function Step(s: State, e: Event): (r: State)
    ensures !s.supervisor.Active? ==> r.supervisor == s.supervisor && r.killAttempts == s.killAttempts
    ensures s.supervisor.Active? && (e.ExitRequest? || s.child.Running?) ==>
      r.supervisor == Terminated(if e.ChildExit? then 0 else e.code) && r.killAttempts == s.killAttempts + 1
    ensures s.child.Exited? ==> r.child.Exited?
  {
    match e
    case ChildExit =>
      if s.child.Exited? then s
      else if s.supervisor.Active? then Teardown(s.(child := Exited), 0, false)
      else s.(child := Exited)
    case ExitRequest(code, killDenied) =>
      if s.supervisor.Active? then Teardown(s, code, killDenied) else s
  }

  /** The state after a sequence of events, in order. */
  function Replay(s: State, events: seq<Event>): State
    decreases events
  {
    if events == [] then s else Replay(Step(s, events[0]), events[1..])
  }

  /**
   * What holds between events: no exit is ever left half done, the kill is
   * tried exactly when the supervisor has exited, and while the supervisor
   * is active the child is still running.
   */
  predicate Inv(s: State) {
    !s.supervisor.Exiting? &&
    s.killAttempts == (if s.supervisor.Active? then 0 else 1) &&
    (s.supervisor.Active? ==> s.child.Running?)
  }

  lemma StartInv()
    ensures Inv(Start)
  {
  }

  lemma StepInv(s: State, e: Event)
    requires Inv(s)
    ensures Inv(Step(s, e))
  {
  }

  /** The invariant holds after every sequence of events. */
  lemma {:induction false} ReplayInv(s: State, events: seq<Event>)
    requires Inv(s)
    ensures Inv(Replay(s, events))
    decreases events
  {
    if events != [] {
      StepInv(s, events[0]);
      ReplayInv(Step(s, events[0]), events[1..]);
    }
  }

  /** However the events arrive, the child is never killed more than once. */
  lemma AtMostOneKill(events: seq<Event>)
    ensures Replay(Start, events).killAttempts <= 1
  {
    ReplayInv(Start, events);
  }

  /** The child ending on its own makes an active supervisor exit with code 0; the kill then tried fails harmlessly. */
  lemma ChildExitExitsZero(s: State)
    requires Inv(s) && s.supervisor.Active?
    ensures Step(s, ChildExit) == State(Exited, Terminated(0), 1)
  {
  }

  /** An exit request always completes with its code, whether or not the kill succeeds. */
  lemma ExitRequestCompletes(s: State, code: int, killDenied: bool)
    requires Inv(s) && s.supervisor.Active?
    ensures Step(s, ExitRequest(code, killDenied)).supervisor == Terminated(code)
    ensures Step(s, ExitRequest(code, killDenied)).killAttempts == 1
    ensures Step(s, ExitRequest(code, killDenied)).child.Exited? <==> !killDenied
  {
  }

  /** Once the supervisor has exited nothing changes its exit code or repeats the kill. */
  lemma {:induction false} TerminatedIsFinal(s: State, events: seq<Event>)
    requires s.supervisor.Terminated?
    ensures Replay(s, events).supervisor == s.supervisor
    ensures Replay(s, events).killAttempts == s.killAttempts
    decreases events
  {
    if events != [] {
      TerminatedIsFinal(Step(s, events[0]), events[1..]);
    }
  }

  /** The first event decides the exit code: 0 if the child ended first, else the requested code. */
  lemma FirstEventDecides(e: Event, events: seq<Event>)
    ensures Replay(Start, [e] + events).supervisor
      == Terminated(if e.ChildExit? then 0 else e.code)
  {
    assert ([e] + events)[1..] == events;
    TerminatedIsFinal(Step(Start, e), events);
  }

  /** The supervisor stays active exactly as long as nothing has happened. */
  lemma ActiveUntilFirstEvent(events: seq<Event>)
    ensures Replay(Start, events).supervisor.Active? <==> events == []
  {
    if events != [] {
      assert [events[0]] + events[1..] == events;
      FirstEventDecides(events[0], events[1..]);
    }
  }

  /** The supervised child and the supervisor's own exit state. */
  class Supervision {
    var child: ChildState
    var supervisor: SupervisorState
    var killAttempts: nat

    function Snapshot(): State
      reads this
    {
      State(child, supervisor, killAttempts)
    }

    /** A freshly started child with EnableRaisingEvents set and both handlers registered. */
    constructor ExitAtSame()
      ensures Snapshot() == Start
    {
      child := Running;
      supervisor := Active;
      killAttempts := 0;
    }

    /** Process.Kill: succeeds only on a running child the system lets it kill; a failure is reported, not thrown here. */
    method Kill(killDenied: bool) returns (killed: bool)
      modifies this
      ensures killed <==> old(child).Running? && !killDenied
      ensures child == if killed then Exited else old(child)
      ensures supervisor == old(supervisor)
      ensures killAttempts == old(killAttempts) + 1
    {
      killed := child.Running? && !killDenied;
      if killed {
        child := Exited;
      }
      killAttempts := killAttempts + 1;
    }

    /** The ProcessExit handler: try to kill the child and swallow any failure. */
    method ExitProcess(killDenied: bool)
      requires supervisor.Exiting?
      modifies this
      ensures child == if old(child).Running? && !killDenied then Exited else old(child)
      ensures supervisor == old(supervisor)
      ensures killAttempts == old(killAttempts) + 1
    {
      var killed := Kill(killDenied);
    }

    /**
     * Environment.Exit: the exit hooks run, then the supervisor is gone.
     * A supervisor already exiting ignores a second request.
     */
    method EnvironmentExit(code: int, killDenied: bool)
      modifies this
      ensures Snapshot() == Step(old(Snapshot()), ExitRequest(code, killDenied))
    {
      if supervisor.Active? {
        supervisor := Exiting(code);
        ExitProcess(killDenied);
        supervisor := Terminated(code);
      }
    }

    /** The child's Exited handler: the child has ended, so the supervisor exits with code 0. */
    method OnChildExited()
      modifies this
      ensures Snapshot() == Step(old(Snapshot()), ChildExit)
    {
      if child.Running? {
        child := Exited;
        EnvironmentExit(0, false);
      }
    }
  }
}
