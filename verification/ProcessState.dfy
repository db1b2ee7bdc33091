/** process_state_vm: one virtual machine with its state handler and process id. Each
    method is proved to do what the function of the same name in ProcessSpec says.
  */
module ProcessStates {
  import opened Lifecycle
  import Spec = ProcessSpec
  import StepOutcomes
  import opened StateHandling

  // A walk takes its first step and goes on from there.
  lemma WalkSteps(p: Spec.Psv, path: seq<VmState>, rest: seq<VmState>)
    requires path != [] && rest == path[1..]
    ensures Spec.Walk(p, path) ==
      var m := Spec.Enter(p, path[0]); if m.ok then Spec.Walk(m.psv, rest) else m
  {
  }

  class ProcessState {
    const sth: StateHandler
    var processid: nat

    ghost function Repr(): set<object> { {this, sth, sth.world} }

    ghost predicate Valid()
      reads this, sth
    {
      sth.vec == PROCESS_TRANSITIONS && sth.current == NodeOf(sth.current.id)
    }

    ghost function Model(): Spec.Psv
      reads Repr()
    {
      Spec.Psv(sth.current.id, processid, sth.world.Model())
    }

    constructor (oracle: nat -> Answer, now: int)
      ensures Valid() && fresh(Repr())
      ensures Model() == Spec.Psv(Init, 0, Env(oracle, [], now))
    {
      var world := new World(oracle, now);
      var i := LookupState(PROCESS_STATES, Init);
      assert PROCESS_STATES[0].id == Init;
      sth := new StateHandler(PROCESS_TRANSITIONS, PROCESS_STATES[i], world);
      processid := 0;
    }

    method TransitionTo(target: VmState) returns (rc: int)
      requires Valid()
      modifies sth, sth.world
      ensures Valid() && Spec.Moved(Model(), rc == 0) == Spec.Enter(old(Model()), target)
      ensures rc == 0 || rc == -1
    {
      TransitIsEnter(Model(), target);
      rc := sth.TransitionTo(target);
    }

    // psv_failurestate
    method FailureState() returns (rc: int)
      requires Valid()
      modifies sth, sth.world
      ensures Valid() && Spec.Moved(Model(), rc == 0) == Spec.FailureState(old(Model()))
      ensures rc == 0 || rc == -1
    {
      WalkSteps(Model(), Spec.FAILURE, [StopNetwork, Stopped, Failed]);
      rc := TransitionTo(StopStorage);
      if rc != 0 { return -1; }
      rc := StopNetworkAndFail();
    }

    // The way to FAILED from STOP_STORAGE or START_NETWORK on.
    method StopNetworkAndFail() returns (rc: int)
      requires Valid()
      modifies sth, sth.world
      ensures Valid() && Spec.Moved(Model(), rc == 0) ==
                         Spec.Walk(old(Model()), [StopNetwork, Stopped, Failed])
      ensures rc == 0 || rc == -1
    {
      WalkSteps(Model(), [StopNetwork, Stopped, Failed], [Stopped, Failed]);
      rc := TransitionTo(StopNetwork);
      if rc != 0 { return -1; }
      WalkSteps(Model(), [Stopped, Failed], [Failed]);
      rc := TransitionTo(Stopped);
      if rc != 0 { return -1; }
      WalkSteps(Model(), [Failed], []);
      rc := TransitionTo(Failed);
    }

    // psv_is_failurestate
    method IsFailureState() returns (failed: bool)
      ensures failed <==> Model().state == Failed
    {
      failed := sth.current.id == Failed;
    }

    // psv_resetfailure
    method ResetFailure() returns (rc: int)
      requires Valid()
      modifies sth, sth.world
      ensures Valid() && Spec.Moved(Model(), rc == 0) == Spec.ResetFailure(old(Model()))
      ensures rc == 0 || rc == -1
    {
      var failed := IsFailureState();
      if !failed { return -1; }
      rc := TransitionTo(Init);
    }

    // psv_startvm
    method StartVm() returns (rc: int)
      requires Valid()
      modifies this, sth, sth.world
      ensures Valid() && Spec.Done(Model(), rc, false) == Spec.StartVm(old(Model()))
    {
      var currentState := sth.current.id;
      if currentState != Init && currentState != Stopped && currentState != RestartStopped { return -1; }
      var restarting := currentState == RestartStopped;
      rc := FirstHook(restarting);
      if rc != 0 { return -1; }
      rc := SecondHook(restarting);
      if rc != 0 { return -1; }
      rc := LaunchAndSettle(restarting);
    }

    // The first start hook and the way down when it fails; storage is not stopped
    // on a cold start because it was not started.
    method FirstHook(restarting: bool) returns (rc: int)
      requires Valid() && Spec.Startable(Model().state)
      requires restarting == (Model().state == RestartStopped)
      modifies sth, sth.world
      ensures Valid() && Spec.Moved(Model(), rc == 0) == Spec.FirstHook(old(Model()))
    {
      var currentState := sth.current.id;
      rc := TransitionTo(if restarting then PrestartAfterRestart else StartNetwork);
      if rc == 0 { return 0; }
      if currentState == Init { return -1; }
      if restarting {
        WalkSteps(Model(), Spec.FAILURE, [StopNetwork, Stopped, Failed]);
        rc := TransitionTo(StopStorage);
        if rc != 0 { return -1; }
      }
      rc := StopNetworkAndFail();
    }

    method SecondHook(restarting: bool) returns (rc: int)
      requires Valid()
      modifies sth, sth.world
      ensures Valid() && Spec.Moved(Model(), rc == 0) == Spec.SecondHook(old(Model()), restarting)
    {
      rc := TransitionTo(if restarting then StartAfterRestart else StartStorage);
      if rc != 0 { rc := FailureState(); }
    }

    // The launch and the states entered after it.
    method LaunchAndSettle(restarting: bool) returns (rc: int)
      requires Valid()
      modifies this, sth, sth.world
      ensures Valid() && Spec.Done(Model(), rc, false) == Spec.LaunchAndSettle(old(Model()), restarting)
    {
      var a := sth.world.Next();
      sth.world.Record(Launched(a.launched, a.pid));
      if !a.launched {
        var _ := FailureState();
        return -1;
      }
      processid := a.pid;
      rc := Settle(restarting);
    }

    method Settle(restarting: bool) returns (rc: int)
      requires Valid()
      modifies sth, sth.world
      ensures Valid() && Spec.Done(Model(), rc, false) == Spec.Settle(old(Model()), restarting)
    {
      if restarting {
        WalkSteps(Model(), [Restarted, Running], [Running]);
        rc := TransitionTo(Restarted);
        if rc == 0 {
          WalkSteps(Model(), [Running], []);
          rc := TransitionTo(Running);
        }
      } else {
        WalkSteps(Model(), [Running], []);
        rc := TransitionTo(Running);
      }
      if rc != 0 {
        var _ := FailureState();
        rc := Spec.PSV_ERR_TRANSITIONSFAIL;
      }
    }

    // psv_stop_or_reboot, not waiting for the exit code
    method StopOrReboot(reboot: bool) returns (rc: int)
      requires Valid()
      modifies sth, sth.world
      ensures Valid() && Spec.Done(Model(), rc, false) == Spec.StopOrReboot(old(Model()), reboot)
      ensures rc == if old(Model()).state == Running && StepOutcomes.StopGoes(old(Model())) then 0 else -1
    {
      hide StepOutcomes.StopGoes;
      StepOutcomes.StopReturnsExactly(Model(), reboot);
      if sth.current.id != Running { return -1; }
      rc := TransitionTo(if reboot then PrestopBeforeRestart else Stopping);
      if rc != 0 {
        rc := FailureState();
        if rc != 0 { return -1; }
      }
      rc := Terminate();
    }

    method Terminate() returns (rc: int)
      requires Valid()
      modifies sth, sth.world
      ensures Valid() && Spec.Done(Model(), rc, false) == Spec.Terminate(old(Model()))
    {
      if processid == 0 { return 0; }
      var term := sth.world.Next().term;
      sth.world.Record(Terminated(term));
      rc := 0;
      if term < 0 { rc := FailureState(); }
    }

    // The three states of a reboot, or the last two of them, and the request to the
    // reboot manager.
    method RequestReboot(fromRunning: bool, rmo: Spec.RebootManager) returns (rc: int, queued: bool)
      requires Valid()
      modifies sth, sth.world
      ensures Valid() && Spec.Done(Model(), rc, queued) == Spec.RequestReboot(old(Model()),
        if fromRunning then [PrestopBeforeRestart, Restarting, RestartStopped]
        else [Restarting, RestartStopped], rmo)
    {
      queued := false;
      if fromRunning {
        WalkSteps(Model(), [PrestopBeforeRestart, Restarting, RestartStopped], [Restarting, RestartStopped]);
        rc := TransitionTo(PrestopBeforeRestart);
        if rc != 0 { return -1, false; }
      }
      WalkSteps(Model(), [Restarting, RestartStopped], [RestartStopped]);
      rc := TransitionTo(Restarting);
      if rc != 0 { return -1, false; }
      WalkSteps(Model(), [RestartStopped], []);
      rc := TransitionTo(RestartStopped);
      if rc != 0 { return -1, false; }
      match rmo
      case NoManager => return 0, false;
      case Accepting =>
        sth.world.Record(RebootAccepted);
        return 0, true;
      case Refusing =>
        var _ := FailureState();
        return -1, false;
    }

    method GoDown() returns (rc: int)
      requires Valid()
      modifies sth, sth.world
      ensures Valid() && Spec.Done(Model(), rc, false) == Spec.GoDown(old(Model()))
    {
      WalkSteps(Model(), Spec.DOWN, [StopNetwork, Stopped]);
      rc := TransitionTo(StopStorage);
      if rc != 0 { return -1; }
      WalkSteps(Model(), [StopNetwork, Stopped], [Stopped]);
      rc := TransitionTo(StopNetwork);
      if rc != 0 { return -1; }
      WalkSteps(Model(), [Stopped], []);
      rc := TransitionTo(Stopped);
    }

    // The switch of psv_onexit.
    method ExitSwitch(exitcode: nat, rmo: Spec.RebootManager) returns (rc: int, queued: bool)
      requires Valid()
      modifies sth, sth.world
      ensures Valid() && Spec.Done(Model(), rc, queued) == Spec.ExitSwitch(old(Model()), exitcode, rmo)
    {
      rc, queued := 0, false;
      match sth.current.id
      case PrestopBeforeRestart =>
        if exitcode == 0 { rc, queued := RequestReboot(false, rmo); }
      case Running =>
        if exitcode == 0 {
          rc, queued := RequestReboot(true, rmo);
        } else if exitcode == 1 || exitcode == 2 {
          rc := GoDown();
        }
      case Stopping => rc := GoDown();
      case _ =>
    }

    // psv_onexit
    method OnExit(exitcode: nat, rmo: Spec.RebootManager) returns (rc: int, queued: bool)
      requires Valid()
      modifies this, sth, sth.world
      ensures Valid() && Spec.Done(Model(), rc, queued) == Spec.OnExit(old(Model()), exitcode, rmo)
    {
      rc, queued := ExitSwitch(exitcode, rmo);
      if rc != 0 { return; }
      if exitcode >= 3 {
        var _ := FailureState();
        processid := 0;
      }
    }
  }
}
