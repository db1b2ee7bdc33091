/** Where a machine ends when its hooks, launches and signals fail: the last state of every
    operation of process_state.c as a function of the answers alone, and exactly when that
    is the failure state.
  */
module FailurePaths {
  import opened Lifecycle
  import opened ProcessSpec
  import opened DirectorSpec
  import opened HookHistory
  import opened StartExactness
  import opened Accounting

  // ---- walks ------------------------------------------------------------------------

  ghost predicate Hook(p: Psv, i: nat) { Later(p, i).hook == 0 }

  // Where a walk ends whose first hook is question i: before the first hook that fails.
  ghost function EndOf(p: Psv, i: nat, from: VmState, path: seq<VmState>): VmState
    decreases path
  {
    if path == [] || !Hook(p, i) then from else EndOf(p, i + 1, path[0], path[1..])
  }

  ghost function FailEnd(p: Psv, i: nat, from: VmState): VmState { EndOf(p, i, from, FAILURE) }

  // q comes i questions after p.
  ghost predicate Behind(p: Psv, q: Psv, i: nat) {
    q.env.oracle == p.env.oracle && |q.env.log| == |p.env.log| + i
  }

  lemma {:induction false} WalkEnds(p: Psv, q: Psv, i: nat, path: seq<VmState>)
    requires Behind(p, q, i) && IsPath(q.state, path)
    ensures Walk(q, path).psv.state == EndOf(p, i, q.state, path)
    ensures Walk(q, path).ok <==> Fine(p, i, i + |path|)
    ensures Walk(q, path).ok ==> Behind(p, Walk(q, path).psv, i + |path|)
    decreases path
  {
    WalkExactly(q, path);
    ShiftFine(p, q, i, |path|);
    if path != [] {
      assert Ask(q.env) == Later(p, i);
      if Hook(p, i) { WalkEnds(p, Enter(q, path[0]).psv, i + 1, path[1..]); }
    }
  }

  lemma FailureEnds(p: Psv, q: Psv, i: nat)
    requires Behind(p, q, i)
    ensures FailureState(q).psv.state == FailEnd(p, i, q.state)
    ensures FailureState(q).ok <==> Fine(p, i, i + 4)
    ensures FailureState(q).ok ==> FailureState(q).psv.state == Failed && Behind(p, FailureState(q).psv, i + 4)
  {
    FailureIsPath(q.state);
    WalkEnds(p, q, i, FAILURE);
    FailureExactly(q);
  }

  lemma FailureIsPath(from: VmState)
    ensures IsPath(from, FAILURE) && IsPath(from, DOWN)
  {
    assert FAILURE[1..] == [StopNetwork, Stopped, Failed] && DOWN[1..] == [StopNetwork, Stopped];
    assert IsPath(Failed, []) && IsPath(Stopped, []);
    assert IsPath(Stopped, [Failed]) && IsPath(StopNetwork, [Stopped]);
    assert IsPath(StopNetwork, [Stopped, Failed]) && IsPath(StopStorage, [StopNetwork, Stopped]);
    assert IsPath(StopStorage, [StopNetwork, Stopped, Failed]);
  }

  /** A failure walk ends in FAILED exactly when its four hooks succeed, or when it starts
      in FAILED and its first hook fails. */
  lemma FailEndExactly(p: Psv, i: nat, from: VmState)
    ensures FailEnd(p, i, from) == Failed <==> Fine(p, i, i + 4) || (from == Failed && !Hook(p, i))
  {
    assert FAILURE[1..] == [StopNetwork, Stopped, Failed];
    assert [StopNetwork, Stopped, Failed][1..] == [Stopped, Failed];
    assert [Stopped, Failed][1..] == [Failed] && [Failed][1..] == [];
    assert FailEnd(p, i, from) ==
      if !Hook(p, i) then from else EndOf(p, i + 1, StopStorage, [StopNetwork, Stopped, Failed]);
    assert EndOf(p, i + 1, StopStorage, [StopNetwork, Stopped, Failed]) ==
      if !Hook(p, i + 1) then StopStorage else EndOf(p, i + 2, StopNetwork, [Stopped, Failed]);
    assert EndOf(p, i + 2, StopNetwork, [Stopped, Failed]) ==
      if !Hook(p, i + 2) then StopNetwork else EndOf(p, i + 3, Stopped, [Failed]);
    assert EndOf(p, i + 3, Stopped, [Failed]) == if !Hook(p, i + 3) then Stopped else Failed;
    assert Fine(p, i, i + 4) <==> Hook(p, i) && Hook(p, i + 1) && Hook(p, i + 2) && Hook(p, i + 3);
  }

  // ---- starts -----------------------------------------------------------------------

  // The last state of psv_startvm.
  ghost function StartEnd(p: Psv): VmState
    requires Startable(p.state)
  {
    var restarting := p.state == RestartStopped;
    if !Hook(p, 0) then
      if !restarting then p.state
      else if !Fine(p, 1, 5) then FailEnd(p, 1, RestartStopped)
      else if !Fine(p, 5, 9) then FailEnd(p, 5, Failed)
      else FailEnd(p, 10, Failed)
    else if !Hook(p, 1) then
      if Fine(p, 2, 6) then FailEnd(p, 7, Failed)
      else FailEnd(p, 2, if restarting then PrestartAfterRestart else StartNetwork)
    else LaunchEnd(p, 2, restarting)
  }

  // The last state when both start hooks have succeeded; question i is the launch.
  ghost function LaunchEnd(p: Psv, i: nat, restarting: bool): VmState {
    if !Later(p, i).launched then FailEnd(p, i + 1, LaunchState(restarting))
    else if !Hook(p, i + 1) then FailEnd(p, i + 2, LaunchState(restarting))
    else if restarting && !Hook(p, i + 2) then FailEnd(p, i + 3, Restarted)
    else Running
  }

  lemma LaunchEnds(p: Psv, q: Psv, i: nat, restarting: bool)
    requires Behind(p, q, i) && q.state == LaunchState(restarting)
    ensures LaunchAndSettle(q, restarting).psv.state == LaunchEnd(p, i, restarting)
  {
    hide FailureState, FailEnd;
    assert Ask(q.env) == Later(p, i);
    var l := Launch(q).psv;
    FailureEnds(p, l, i + 1);
    var m := Enter(l, if restarting then Restarted else Running);
    assert Ask(l.env) == Later(p, i + 1);
    FailureEnds(p, m.psv, i + 2);
    if restarting {
      assert Walk(l, [Restarted, Running]) == if m.ok then Walk(m.psv, [Running]) else m by {
        assert [Restarted, Running][1..] == [Running];
      }
      if m.ok {
        var n := Enter(m.psv, Running);
        assert Ask(m.psv.env) == Later(p, i + 2) && Walk(m.psv, [Running]) == n;
        FailureEnds(p, n.psv, i + 3);
      }
    } else {
      assert Walk(l, [Running]) == m;
    }
  }

  // A launch from FAILED, after a fallback: no state after it can be entered.
  lemma LaunchFromFailedEnds(p: Psv, q: Psv, i: nat, restarting: bool)
    requires Behind(p, q, i) && q.state == Failed
    ensures LaunchAndSettle(q, restarting).psv.state == FailEnd(p, i + 1, Failed)
  {
    hide FailureState, FailEnd;
    var l := Launch(q).psv;
    FailureEnds(p, l, i + 1);
    assert !Enter(l, Restarted).ok && !Enter(l, Running).ok;
  }

  lemma NoWayDown(p: Psv)
    requires p.state == Init || p.state == Stopped
    ensures Walk(p, [StopNetwork, Stopped, Failed]) == Moved(p, false)
  {
  }

  lemma FirstHookEnds(p: Psv)
    requires Startable(p.state) && !Hook(p, 0)
    ensures var m := FirstHook(p);
      if p.state != RestartStopped then !m.ok && m.psv.state == p.state
      else m.psv.state == FailEnd(p, 1, RestartStopped) && (m.ok <==> Fine(p, 1, 5)) &&
           (m.ok ==> m.psv.state == Failed && Behind(p, m.psv, 5))
  {
    hide FailEnd, Walk, Fine;
    assert Ask(p.env) == Later(p, 0);
    var q := Enter(p, if p.state == RestartStopped then PrestartAfterRestart else StartNetwork).psv;
    if p.state == RestartStopped { FailureEnds(p, q, 1); } else { NoWayDown(q); }
  }

  lemma SecondHookEnds(p: Psv, q: Psv, i: nat, restarting: bool)
    requires Behind(p, q, i)
    requires q.state == Failed ||
      (!Hook(p, i) && q.state == if restarting then PrestartAfterRestart else StartNetwork)
    ensures var (m, j) := (SecondHook(q, restarting), if q.state == Failed then i else i + 1);
      m.psv.state == FailEnd(p, j, q.state) && (m.ok <==> Fine(p, j, j + 4)) &&
      (m.ok ==> m.psv.state == Failed && Behind(p, m.psv, j + 4))
  {
    hide FailEnd, FailureState;
    assert Ask(q.env) == Later(p, i);
    var m := Enter(q, if restarting then StartAfterRestart else StartStorage);
    FailureEnds(p, m.psv, if q.state == Failed then i else i + 1);
  }

  /** For every pattern of answers: the state in which psv_startvm leaves a machine. */
  lemma StartEnds(p: Psv)
    requires Startable(p.state)
    ensures StartVm(p).psv.state == StartEnd(p)
  {
    hide FailEnd, FailureState, LaunchAndSettle, FirstHook, SecondHook;
    var restarting := p.state == RestartStopped;
    if !Hook(p, 0) {
      FirstHookEnds(p);
      if restarting && Fine(p, 1, 5) {
        SecondHookEnds(p, FirstHook(p).psv, 5, true);
        if Fine(p, 5, 9) { LaunchFromFailedEnds(p, BringUp(p).psv, 9, true); }
      }
    } else {
      FirstHookSucceeds(p);
      var q := FirstHook(p).psv;
      if !Hook(p, 1) {
        SecondHookEnds(p, q, 1, restarting);
        if Fine(p, 2, 6) { LaunchFromFailedEnds(p, BringUp(p).psv, 6, restarting); }
      } else {
        SecondHookSucceeds(p, q, restarting);
        LaunchEnds(p, BringUp(p).psv, 2, restarting);
      }
    }
  }

  lemma FirstHookSucceeds(p: Psv)
    requires Startable(p.state) && Hook(p, 0)
    ensures FirstHook(p).ok && Behind(p, FirstHook(p).psv, 1)
    ensures FirstHook(p).psv.state == if p.state == RestartStopped then PrestartAfterRestart else StartNetwork
  {
    assert Ask(p.env) == Later(p, 0);
  }

  lemma SecondHookSucceeds(p: Psv, q: Psv, restarting: bool)
    requires Behind(p, q, 1) && Hook(p, 1)
    requires q.state == if restarting then PrestartAfterRestart else StartNetwork
    ensures SecondHook(q, restarting).ok && Behind(p, SecondHook(q, restarting).psv, 2)
    ensures SecondHook(q, restarting).psv.state == LaunchState(restarting)
  {
    assert Ask(q.env) == Later(p, 1);
  }

  // A failure walk from FAILED comes back to FAILED.
  ghost predicate StaysFailed(p: Psv, i: nat) { !Hook(p, i) || Fine(p, i, i + 4) }

  // The answers that bring a start to FAILED.
  ghost predicate StartFails(p: Psv) {
    var restarting := p.state == RestartStopped;
    if !Hook(p, 0) then restarting && Fine(p, 1, 5) && if Fine(p, 5, 9) then StaysFailed(p, 10) else !Hook(p, 5)
    else if !Hook(p, 1) then Fine(p, 2, 6) && StaysFailed(p, 7)
    else if !Later(p, 2).launched then Fine(p, 3, 7)
    else if !Hook(p, 3) then Fine(p, 4, 8)
    else restarting && !Hook(p, 4) && Fine(p, 5, 9)
  }

  /** psv_startvm leaves a machine in FAILED if and only if the answers are these: never
      after the first hook of a cold start, and else only when the hooks of the failure
      walk succeed. */
  lemma StartFailsExactly(p: Psv)
    requires Startable(p.state)
    ensures StartVm(p).psv.state == Failed <==> StartFails(p)
  {
    hide FailEnd, StartVm, Fine;
    StartEnds(p);
    var restarting := p.state == RestartStopped;
    FailEndExactly(p, 1, RestartStopped);
    FailEndExactly(p, 2, if restarting then PrestartAfterRestart else StartNetwork);
    FailEndExactly(p, 3, LaunchState(restarting));
    FailEndExactly(p, 4, LaunchState(restarting));
    FailEndExactly(p, 5, Failed);
    FailEndExactly(p, 5, Restarted);
    FailEndExactly(p, 7, Failed);
    FailEndExactly(p, 10, Failed);
  }

  /** A cold start whose first hook fails leaves the machine where it was: in INIT, because
      the fallback is skipped there, and in STOPPED, because STOP_NETWORK cannot be entered
      from it. */
  lemma ColdStartStays(p: Psv)
    requires (p.state == Init || p.state == Stopped) && !Hook(p, 0)
    ensures StartVm(p).psv.state == p.state && StartVm(p).rc == -1
  {
    hide LaunchAndSettle, SecondHook;
    FirstHookEnds(p);
  }

  // ---- stops ------------------------------------------------------------------------

  // The last state of psv_stop_or_reboot for a RUNNING machine.
  ghost function StopEnd(p: Psv, reboot: bool): VmState {
    var target := if reboot then PrestopBeforeRestart else Stopping;
    if Hook(p, 0) then
      if p.pid == 0 || Later(p, 1).term >= 0 then target else FailEnd(p, 2, target)
    else if !Fine(p, 1, 5) then FailEnd(p, 1, Running)
    else if p.pid == 0 || Later(p, 5).term >= 0 then Failed
    else FailEnd(p, 6, Failed)
  }

  lemma TerminateEnds(p: Psv, q: Psv, i: nat)
    requires Behind(p, q, i)
    ensures Terminate(q).psv.state ==
      if q.pid == 0 || Later(p, i).term >= 0 then q.state else FailEnd(p, i + 1, q.state)
  {
    hide FailureState, FailEnd;
    assert Ask(q.env) == Later(p, i);
    FailureEnds(p, Noted(q, Terminated(Later(p, i).term)), i + 1);
  }

  /** For every pattern of answers: the state in which a stop or a reboot leaves a machine. */
  lemma StopEnds(p: Psv, reboot: bool)
    requires p.state == Running
    ensures StopOrReboot(p, reboot).psv.state == StopEnd(p, reboot)
  {
    hide FailEnd, Terminate, FailureState, Fine;
    assert Ask(p.env) == Later(p, 0);
    var m := Enter(p, if reboot then PrestopBeforeRestart else Stopping);
    TerminateEnds(p, m.psv, 1);
    FailureEnds(p, m.psv, 1);
    FailureKeepsPid(m.psv);
    if FailureState(m.psv).ok { TerminateEnds(p, FailureState(m.psv).psv, 5); }
  }

  lemma FailureKeepsPid(p: Psv)
    ensures FailureState(p).psv.pid == p.pid
  {
    WalkKeepsPid(p, FAILURE);
  }

  lemma {:induction false} WalkKeepsPid(p: Psv, path: seq<VmState>)
    ensures Walk(p, path).psv.pid == p.pid
    decreases path
  {
    if path != [] && Enter(p, path[0]).ok { WalkKeepsPid(Enter(p, path[0]).psv, path[1..]); }
  }

  /** A stop or a reboot leaves a RUNNING machine in FAILED if and only if its hook succeeds
      and the signal cannot be sent, or its hook fails, and the failure walk succeeds. */
  lemma StopFailsExactly(p: Psv, reboot: bool)
    requires p.state == Running
    ensures StopOrReboot(p, reboot).psv.state == Failed <==>
      if Hook(p, 0) then p.pid != 0 && Later(p, 1).term < 0 && Fine(p, 2, 6)
      else Fine(p, 1, 5) && (p.pid == 0 || Later(p, 5).term >= 0 || StaysFailed(p, 6))
  {
    hide FailEnd, StopOrReboot, Fine;
    StopEnds(p, reboot);
    FailEndExactly(p, 1, Running);
    FailEndExactly(p, 2, if reboot then PrestopBeforeRestart else Stopping);
    FailEndExactly(p, 6, Failed);
  }

  // ---- exits ------------------------------------------------------------------------

  const TORESTART: seq<VmState> := [PrestopBeforeRestart, Restarting, RestartStopped]

  // The last state of a walk to RESTART_STOPPED and a request to the reboot manager.
  ghost function RequestEnd(p: Psv, path: seq<VmState>, rmo: RebootManager): VmState {
    if rmo == Refusing && Fine(p, 0, |path|) then FailEnd(p, |path|, RestartStopped)
    else EndOf(p, 0, p.state, path)
  }

  // The last state of psv_onexit.
  ghost function ExitEnd(p: Psv, code: nat, rmo: RebootManager): VmState {
    if p.state == Stopping then
      if code >= 3 && Fine(p, 0, 3) then FailEnd(p, 3, Stopped) else EndOf(p, 0, Stopping, DOWN)
    else if code >= 3 then FailEnd(p, 0, p.state)
    else if p.state == Running && code == 0 then RequestEnd(p, TORESTART, rmo)
    else if p.state == Running then EndOf(p, 0, Running, DOWN)
    else if p.state == PrestopBeforeRestart && code == 0 then RequestEnd(p, TORESTART[1..], rmo)
    else p.state
  }

  lemma RequestEnds(p: Psv, path: seq<VmState>, rmo: RebootManager)
    requires path != [] && IsPath(p.state, path) && path[|path| - 1] == RestartStopped
    ensures RequestReboot(p, path, rmo).psv.state == RequestEnd(p, path, rmo)
  {
    hide FailureState, FailEnd;
    WalkEnds(p, p, 0, path);
    if Walk(p, path).ok {
      WalkArrives(p, path);
      FailureEnds(p, Walk(p, path).psv, |path|);
    }
  }

  lemma RestartIsPath()
    ensures IsPath(Running, TORESTART) && IsPath(PrestopBeforeRestart, TORESTART[1..])
  {
    assert TORESTART[1..] == [Restarting, RestartStopped];
    assert IsPath(RestartStopped, []) && IsPath(Restarting, [RestartStopped]);
    assert IsPath(PrestopBeforeRestart, [Restarting, RestartStopped]);
  }

  lemma GoDownEnds(p: Psv)
    ensures var d := GoDown(p);
      d.psv.state == EndOf(p, 0, p.state, DOWN) && (d.rc == 0 <==> Fine(p, 0, 3)) &&
      (d.rc == 0 ==> d.psv.state == Stopped && Behind(p, d.psv, 3))
  {
    FailureIsPath(p.state);
    WalkEnds(p, p, 0, DOWN);
    if Walk(p, DOWN).ok { WalkArrives(p, DOWN); }
  }

  /** For every pattern of answers: the state in which psv_onexit leaves a machine. */
  lemma ExitEnds(p: Psv, code: nat, rmo: RebootManager)
    ensures OnExit(p, code, rmo).psv.state == ExitEnd(p, code, rmo)
  {
    hide FailureState, FailEnd, EndOf, GoDown, RequestReboot;
    GoDownEnds(p);
    FailureEnds(p, p, 0);
    if p.state == Stopping && Fine(p, 0, 3) { FailureEnds(p, GoDown(p).psv, 3); }
    RestartIsPath();
    assert TORESTART[1..] == [Restarting, RestartStopped];
    if p.state == Running { RequestEnds(p, TORESTART, rmo); }
    if p.state == PrestopBeforeRestart { RequestEnds(p, TORESTART[1..], rmo); }
  }

  lemma {:induction false} EndsOnPath(p: Psv, i: nat, from: VmState, path: seq<VmState>)
    ensures EndOf(p, i, from, path) == from || EndOf(p, i, from, path) in path
    decreases path
  {
    if path != [] && Hook(p, i) { EndsOnPath(p, i + 1, path[0], path[1..]); }
  }

  // The answers that leave a machine in FAILED when its child has ended.
  ghost predicate ExitFails(p: Psv, code: nat, rmo: RebootManager) {
    match p.state
    case Stopping => code >= 3 && Fine(p, 0, 7)
    case Failed => code < 3 || StaysFailed(p, 0)
    case Running => if code == 0 then rmo == Refusing && Fine(p, 0, 7) else code >= 3 && Fine(p, 0, 4)
    case PrestopBeforeRestart =>
      if code == 0 then rmo == Refusing && Fine(p, 0, 6) else code >= 3 && Fine(p, 0, 4)
    case _ => code >= 3 && Fine(p, 0, 4)
  }

  /** psv_onexit leaves a machine in FAILED if and only if the answers are these. */
  lemma ExitFailsExactly(p: Psv, code: nat, rmo: RebootManager)
    ensures OnExit(p, code, rmo).psv.state == Failed <==> ExitFails(p, code, rmo)
  {
    hide FailEnd, OnExit, EndOf, Fine;
    ExitEnds(p, code, rmo);
    FailEndExactly(p, 0, p.state);
    FailEndExactly(p, 2, RestartStopped);
    FailEndExactly(p, 3, RestartStopped);
    FailEndExactly(p, 3, Stopped);
    EndsOnPath(p, 0, p.state, DOWN);
    EndsOnPath(p, 0, p.state, TORESTART);
    EndsOnPath(p, 0, p.state, TORESTART[1..]);
    FineSplits(p, 0, 3, 7);
    FineSplits(p, 0, 2, 6);
  }

  lemma FineSplits(p: Psv, i: nat, j: nat, k: nat)
    requires i <= j <= k
    ensures Fine(p, i, k) <==> Fine(p, i, j) && Fine(p, j, k)
  {
  }

  /** A STOP_STORAGE hook that fails when the child has ended with code 1 leaves the machine
      in RUNNING without a child. */
  lemma RunningWithoutChild(vm: Vm)
    requires vm.psv.state == Running && Unseen(vm.psv.env.log) == 1 && !Hook(vm.psv, 1)
    ensures var q := ExitEvent(vm, Exited(1)).vm.psv; q.state == Running && Unseen(q.env.log) == 0
  {
    hide Unseen, OnExit, ExitEnd;
    ExitCounts(vm, Exited(1));
    var seen := Noted(vm.psv, Delivered(Exited(1)));
    assert Later(seen, 0) == Later(vm.psv, 1);
    ExitEnds(seen, 1, Accepting);
    StopStorageHolds(seen);
  }

  lemma StopStorageHolds(p: Psv)
    requires p.state == Running && !Hook(p, 0)
    ensures ExitEnd(p, 1, Accepting) == Running
  {
  }

  /** A child that a signal has killed right after its launch counts as one that ended with
      exit code 0: the machine asks for a reboot when the three hooks on the way succeed. */
  lemma SignalledAtOnceReboots(vm: Vm, signal: nat)
    requires vm.psv.state == Running && Later(vm.psv, 0).probe == Reaped(Signaled(signal))
    ensures LookAtChild(vm).queued <==> Fine(vm.psv, 1, 4)
    ensures LookAtChild(vm).queued ==> LookAtChild(vm).vm.psv.state == RestartStopped
  {
    hide FailureState;
    assert Ask(vm.psv.env) == Later(vm.psv, 0);
    var seen := Noted(vm.psv, Probed(Reaped(Signaled(signal))));
    RestartIsPath();
    WalkEnds(vm.psv, seen, 1, TORESTART);
    if Walk(seen, TORESTART).ok { WalkArrives(seen, TORESTART); }
  }
}
