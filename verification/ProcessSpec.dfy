/** What the operations of process_state.c do to one virtual machine, as functions
    of its state and of the answers the world gives. The classes of the modules
    ProcessStates and Directors are proved against these functions; the other
    modules prove what they mean.
  */
module ProcessSpec {
  import opened Lifecycle

  // A virtual machine as process_state.c sees it.
  datatype Psv = Psv(state: VmState, pid: nat, env: Env)

  // Result of moving a machine, `ok` when every step asked for was made.
  datatype Moved = Moved(psv: Psv, ok: bool)

  // Result of an operation with its int return code; `queued` when the reboot
  // manager accepted a request on the way.
  datatype Done = Done(psv: Psv, rc: int, queued: bool)

  const PSV_ERR_TRANSITIONSFAIL := 2

  function Noted(p: Psv, a: Action): Psv { p.(env := Note(p.env, a)) }

  /** sth_transitionto over the process tables: without a matching entry nothing
      happens; otherwise the hook of the target runs and only its success moves
      the machine. */
  function Enter(p: Psv, target: VmState): Moved {
    if !Allowed(p.state, target) then Moved(p, false)
    else
      var rc := if target == Init then 0 else Ask(p.env).hook;
      var q := Noted(p, Entered(target, rc));
      if rc == 0 then Moved(q.(state := target), true) else Moved(q, false)
  }

  // One transition after the other, until one fails.
  function Walk(p: Psv, path: seq<VmState>): Moved
    decreases path
  {
    if path == [] then Moved(p, true)
    else
      var m := Enter(p, path[0]);
      if m.ok then Walk(m.psv, path[1..]) else m
  }

  const DOWN: seq<VmState> := [StopStorage, StopNetwork, Stopped]
  const FAILURE: seq<VmState> := [StopStorage, StopNetwork, Stopped, Failed]

  // psv_failurestate
  function FailureState(p: Psv): Moved { Walk(p, FAILURE) }

  // psv_resetfailure
  function ResetFailure(p: Psv): Moved {
    if p.state != Failed then Moved(p, false) else Enter(p, Init)
  }

  predicate Startable(s: VmState) { s == Init || s == Stopped || s == RestartStopped }

  /** The two start hooks with their fallbacks; `ok` when psv_startvm goes on to
      launch, which it also does from FAILED after a fallback that succeeded. */
  function BringUp(p: Psv): Moved
    requires Startable(p.state)
  {
    var first := FirstHook(p);
    if first.ok then SecondHook(first.psv, p.state == RestartStopped) else first
  }

  function FirstHook(p: Psv): Moved
    requires Startable(p.state)
  {
    var restarting := p.state == RestartStopped;
    var m := Enter(p, if restarting then PrestartAfterRestart else StartNetwork);
    if m.ok then m
    else if p.state == Init then m
    else if restarting then Walk(m.psv, FAILURE)
    else Walk(m.psv, [StopNetwork, Stopped, Failed])
  }

  function SecondHook(p: Psv, restarting: bool): Moved {
    var m := Enter(p, if restarting then StartAfterRestart else StartStorage);
    if m.ok then m else FailureState(m.psv)
  }

  // The child process is forked; on success its id is kept.
  function Launch(p: Psv): Moved {
    var a := Ask(p.env);
    var q := Noted(p, Launched(a.launched, a.pid));
    if a.launched then Moved(q.(pid := a.pid), true) else Moved(q, false)
  }

  // The states entered after the launch.
  function Settle(p: Psv, restarting: bool): Done {
    var m := if restarting then Walk(p, [Restarted, Running]) else Walk(p, [Running]);
    if m.ok then Done(m.psv, 0, false)
    else Done(FailureState(m.psv).psv, PSV_ERR_TRANSITIONSFAIL, false)
  }

  function LaunchAndSettle(p: Psv, restarting: bool): Done {
    var l := Launch(p);
    if l.ok then Settle(l.psv, restarting) else Done(FailureState(l.psv).psv, -1, false)
  }

  /** psv_startvm. A failed launch is -1 in process_def.c, and stays -1 when the
      error bits are or-ed into it. */
  function StartVm(p: Psv): Done {
    if !Startable(p.state) then Done(p, -1, false)
    else
      var up := BringUp(p);
      if up.ok then LaunchAndSettle(up.psv, p.state == RestartStopped) else Done(up.psv, -1, false)
  }

  // The SIGTERM of psv_stop_or_reboot; no signal without a process id.
  function Terminate(p: Psv): Done {
    if p.pid == 0 then Done(p, 0, false)
    else
      var rc := Ask(p.env).term;
      var q := Noted(p, Terminated(rc));
      if rc >= 0 then Done(q, 0, false)
      else
        var m := FailureState(q);
        Done(m.psv, if m.ok then 0 else -1, false)
  }

  // psv_stop_or_reboot without waiting for the exit code, as the director calls it
  function StopOrReboot(p: Psv, reboot: bool): Done {
    if p.state != Running then Done(p, -1, false)
    else
      var m := Enter(p, if reboot then PrestopBeforeRestart else Stopping);
      if m.ok then Terminate(m.psv)
      else
        var f := FailureState(m.psv);
        if f.ok then Terminate(f.psv) else Done(f.psv, -1, false)
  }

  // Whom psv_onexit asks for a reboot: nobody, or a manager that takes or
  // refuses the request.
  datatype RebootManager = NoManager | Accepting | Refusing

  // The restart states, then the request to the reboot manager.
  function RequestReboot(p: Psv, path: seq<VmState>, rmo: RebootManager): Done {
    var m := Walk(p, path);
    if !m.ok then Done(m.psv, -1, false)
    else match rmo
      case NoManager => Done(m.psv, 0, false)
      case Accepting => Done(Noted(m.psv, RebootAccepted), 0, true)
      case Refusing => Done(FailureState(m.psv).psv, -1, false)
  }

  function GoDown(p: Psv): Done {
    var m := Walk(p, DOWN);
    Done(m.psv, if m.ok then 0 else -1, false)
  }

  // The switch of psv_onexit.
  function ExitSwitch(p: Psv, code: nat, rmo: RebootManager): Done {
    match p.state
    case PrestopBeforeRestart =>
      if code == 0 then RequestReboot(p, [Restarting, RestartStopped], rmo) else Done(p, 0, false)
    case Running =>
      if code == 0 then RequestReboot(p, [PrestopBeforeRestart, Restarting, RestartStopped], rmo)
      else if code == 1 || code == 2 then GoDown(p)
      else Done(p, 0, false)
    case Stopping => GoDown(p)
    case _ => Done(p, 0, false)
  }

  // psv_onexit
  function OnExit(p: Psv, code: nat, rmo: RebootManager): Done {
    var d := ExitSwitch(p, code, rmo);
    if d.rc != 0 || code < 3 then d
    else Done(FailureState(d.psv).psv.(pid := 0), 0, d.queued)
  }
}
