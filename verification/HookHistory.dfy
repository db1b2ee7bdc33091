/** What the journal of a virtual machine looks like in every run, whatever hooks,
    launches and signals do: the state is the last one entered and each entry was
    allowed by the transition table.
  */
module HookHistory {
  import opened Lifecycle
  import opened ProcessSpec
  import opened DirectorSpec
  import opened Executions

  // The state last entered.
  function StateOf(log: seq<Event>): VmState {
    if log == [] then Init
    else match log[|log| - 1].action
      case Entered(s, rc) => if rc == 0 then s else StateOf(log[..|log| - 1])
      case _ => StateOf(log[..|log| - 1])
  }

  // What may come next: an allowed entry, and a reboot request only while the
  // machine waits to be restarted.
  ghost predicate LegalNext(s: VmState, a: Action) {
    match a
    case Entered(target, _) => Allowed(s, target)
    case RebootAccepted => s == RestartStopped
    case _ => true
  }

  ghost predicate Legal(log: seq<Event>) {
    log == [] ||
    (Legal(log[..|log| - 1]) && LegalNext(StateOf(log[..|log| - 1]), log[|log| - 1].action))
  }

  // The journal explains the state.
  ghost predicate Explained(p: Psv) { Legal(p.env.log) && StateOf(p.env.log) == p.state }

  // ---- every operation keeps the journal and the state in step ---------------

  lemma NotedIsExplained(p: Psv, a: Action)
    requires Explained(p) && LegalNext(p.state, a)
    ensures var q := Noted(p, a);
      Legal(q.env.log) && StateOf(q.env.log) == (match a
        case Entered(s, rc) => if rc == 0 then s else p.state
        case _ => p.state)
  {
    var e := Event(p.env.now + Ask(p.env).elapsed, a);
    assert (p.env.log + [e])[..|p.env.log|] == p.env.log;
  }

  lemma EnterIsExplained(p: Psv, target: VmState)
    requires Explained(p)
    ensures Explained(Enter(p, target).psv)
    ensures Enter(p, target).psv.pid == p.pid
  {
    if Allowed(p.state, target) {
      NotedIsExplained(p, Entered(target, if target == Init then 0 else Ask(p.env).hook));
    }
  }

  lemma {:induction false} WalkIsExplained(p: Psv, path: seq<VmState>)
    requires Explained(p)
    ensures Explained(Walk(p, path).psv)
    ensures Walk(p, path).psv.pid == p.pid
    decreases path
  {
    if path != [] {
      EnterIsExplained(p, path[0]);
      var m := Enter(p, path[0]);
      if m.ok { WalkIsExplained(m.psv, path[1..]); }
    }
  }

  // An entry made by a walk that succeeded leaves the machine at its end.
  lemma {:induction false} WalkArrives(p: Psv, path: seq<VmState>)
    requires path != [] && Walk(p, path).ok
    ensures Walk(p, path).psv.state == path[|path| - 1]
    decreases path
  {
    var m := Enter(p, path[0]);
    if |path| > 1 { WalkArrives(m.psv, path[1..]); }
  }

  lemma BringUpIsExplained(p: Psv)
    requires Explained(p) && Startable(p.state)
    ensures Explained(BringUp(p).psv)
  {
    var restarting := p.state == RestartStopped;
    var target := if restarting then PrestartAfterRestart else StartNetwork;
    EnterIsExplained(p, target);
    var m := Enter(p, target);
    if !m.ok {
      WalkIsExplained(m.psv, FAILURE);
      WalkIsExplained(m.psv, [StopNetwork, Stopped, Failed]);
    }
    var first := FirstHook(p);
    if first.ok {
      var t2 := if restarting then StartAfterRestart else StartStorage;
      EnterIsExplained(first.psv, t2);
      WalkIsExplained(Enter(first.psv, t2).psv, FAILURE);
    }
  }

  lemma LaunchIsExplained(p: Psv, restarting: bool)
    requires Explained(p)
    ensures Explained(LaunchAndSettle(p, restarting).psv)
  {
    NotedIsExplained(p, Launched(Ask(p.env).launched, Ask(p.env).pid));
    var l := Launch(p);
    if l.ok {
      var path := if restarting then [Restarted, Running] else [Running];
      WalkIsExplained(l.psv, path);
      WalkIsExplained(Walk(l.psv, path).psv, FAILURE);
    } else {
      WalkIsExplained(l.psv, FAILURE);
    }
  }

  lemma StartVmIsExplained(p: Psv)
    requires Explained(p)
    ensures Explained(StartVm(p).psv)
  {
    if Startable(p.state) {
      BringUpIsExplained(p);
      if BringUp(p).ok { LaunchIsExplained(BringUp(p).psv, p.state == RestartStopped); }
    }
  }

  lemma TerminateIsExplained(p: Psv)
    requires Explained(p)
    ensures Explained(Terminate(p).psv)
  {
    NotedIsExplained(p, Terminated(Ask(p.env).term));
    WalkIsExplained(Noted(p, Terminated(Ask(p.env).term)), FAILURE);
  }

  lemma StopOrRebootIsExplained(p: Psv, reboot: bool)
    requires Explained(p)
    ensures Explained(StopOrReboot(p, reboot).psv)
  {
    if p.state == Running {
      var target := if reboot then PrestopBeforeRestart else Stopping;
      EnterIsExplained(p, target);
      var m := Enter(p, target);
      TerminateIsExplained(m.psv);
      WalkIsExplained(m.psv, FAILURE);
      TerminateIsExplained(FailureState(m.psv).psv);
    }
  }

  lemma RequestRebootIsExplained(p: Psv, path: seq<VmState>, rmo: RebootManager)
    requires Explained(p) && path != [] && path[|path| - 1] == RestartStopped
    ensures var d := RequestReboot(p, path, rmo); Explained(d.psv)
  {
    WalkIsExplained(p, path);
    var m := Walk(p, path);
    if m.ok {
      WalkArrives(p, path);
      NotedIsExplained(m.psv, RebootAccepted);
      WalkIsExplained(m.psv, FAILURE);
    }
  }

  lemma OnExitIsExplained(p: Psv, code: nat, rmo: RebootManager)
    requires Explained(p)
    ensures var d := OnExit(p, code, rmo); Explained(d.psv)
  {
    hide Legal, StateOf, RequestReboot, Walk;
    RequestRebootIsExplained(p, [Restarting, RestartStopped], rmo);
    RequestRebootIsExplained(p, [PrestopBeforeRestart, Restarting, RestartStopped], rmo);
    WalkIsExplained(p, DOWN);
    WalkIsExplained(ExitSwitch(p, code, rmo).psv, FAILURE);
  }

  lemma LookAtChildIsExplained(vm: Vm)
    requires Explained(vm.psv)
    ensures var h := LookAtChild(vm); Explained(h.vm.psv)
  {
    var probe := Ask(vm.psv.env).probe;
    var seen := Noted(vm.psv, Probed(probe));
    NotedIsExplained(vm.psv, Probed(probe));
    OnExitIsExplained(seen, 4, Accepting);
    if probe.Reaped? && !probe.status.JobStopped? {
      OnExitIsExplained(seen, ExitCode(probe.status), Accepting);
      WalkIsExplained(OnExit(seen, ExitCode(probe.status), Accepting).psv, FAILURE);
    }
  }

  lemma AttemptIsExplained(vm: Vm)
    requires Explained(vm.psv)
    ensures var h := Attempt(vm); Explained(h.vm.psv)
  {
    var g := Noted(vm.psv, Generated(Ask(vm.psv.env).generate));
    NotedIsExplained(vm.psv, Generated(Ask(vm.psv.env).generate));
    if Ask(vm.psv.env).generate != 0 {
      WalkIsExplained(g, FAILURE);
    } else {
      StartVmIsExplained(g);
      if StartVm(g).rc == 0 { LookAtChildIsExplained(vm.(psv := StartVm(g).psv)); }
    }
  }

  lemma StartRequestIsExplained(vm: Vm)
    requires Explained(vm.psv)
    ensures var h := StartRequest(vm); Explained(h.vm.psv)
  {
    var counted := Counting(vm);
    NotedIsExplained(vm.psv, Counted);
    WalkIsExplained(counted.psv, FAILURE);
    NotedIsExplained(counted.psv, Stamped);
    AttemptIsExplained(Stamping(counted));
  }

  lemma ExitEventIsExplained(vm: Vm, status: WaitStatus)
    requires Explained(vm.psv)
    ensures var h := ExitEvent(vm, status); Explained(h.vm.psv)
  {
    NotedIsExplained(vm.psv, Delivered(status));
    var seen := Noted(vm.psv, Delivered(status));
    if status.Exited? { OnExitIsExplained(seen, status.code, Accepting); }
    WalkIsExplained(seen, FAILURE);
  }

  ghost predicate AllExplained(s: Sys) { forall v :: 0 <= v < |s.vms| ==> Explained(s.vms[v].psv) }

  lemma StepIsExplained(s: Sys, c: Command)
    requires WellFormed(s) && AllExplained(s)
    ensures AllExplained(Step(s, c))
  {
    match c
    case Start(v) => if v < |s.vms| { StartRequestIsExplained(s.vms[v]); }
    case Stop(v) => if v < |s.vms| { StopOrRebootIsExplained(s.vms[v].psv, false); }
    case Reboot(v) => if v < |s.vms| { StopOrRebootIsExplained(s.vms[v].psv, true); }
    case ResetFail(v) => if v < |s.vms| { EnterIsExplained(s.vms[v].psv, Init); }
    case Exit(v, status) => if v < |s.vms| { ExitEventIsExplained(s.vms[v], status); }
    case Pop =>
    case StartPopped => if s.pending.Some? { StartRequestIsExplained(s.vms[s.pending.value]); }
  }

  lemma FreshIsExplained(s: Sys)
    requires Fresh(s)
    ensures WellFormed(s) && AllExplained(s)
  {
  }

  /** In every execution, under any outcome of hooks, launches and signals, each journal
      was legal at every entry and explains the state of its machine. */
  lemma {:induction false} AlwaysExplained(x: Execution, i: nat)
    requires Possible(x) && i <= |x.cs| && AllExplained(x.states[0])
    ensures AllExplained(x.states[i])
    decreases i
  {
    hide Step, AllExplained;
    if i > 0 {
      AlwaysExplained(x, i - 1);
      assert Follows(x, i - 1);
      StepIsExplained(x.states[i - 1], x.cs[i - 1]);
    }
  }
}
