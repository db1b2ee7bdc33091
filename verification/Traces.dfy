/** Which events each operation adds to the journal of a virtual machine, hooks set
    aside, and that journals and clocks only go forward.
  */
module Traces {
  import opened Wrappers
  import opened Lifecycle
  import opened ProcessSpec
  import opened DirectorSpec
  import opened Executions

  // The journal without its hook runs.
  ghost function Core(log: seq<Event>): seq<Event> {
    if log == [] then []
    else
      var e := log[|log| - 1];
      Core(log[..|log| - 1]) + (if e.action.Entered? || e.action.Left? then [] else [e])
  }

  // A count to which every event adds its own share.
  ghost predicate Additive(count: seq<Event> -> int, share: Event -> int) {
    count([]) == 0 &&
    forall log: seq<Event>, e: Event {:trigger count(log + [e])} :: count(log + [e]) == count(log) + share(e)
  }

  // A count that hooks do not add to can be taken in the journal without them.
  lemma {:induction false} CountOfCore(count: seq<Event> -> int, share: Event -> int, log: seq<Event>)
    requires Additive(count, share)
    requires forall e: Event {:trigger share(e)} :: e.action.Entered? || e.action.Left? ==> share(e) == 0
    ensures count(Core(log)) == count(log)
    decreases |log|
  {
    if log != [] {
      var (prefix, e) := (log[..|log| - 1], log[|log| - 1]);
      CountOfCore(count, share, prefix);
      assert log == prefix + [e] && count(log) == count(prefix) + share(e);
      if e.action.Entered? || e.action.Left? {
        assert Core(log) == Core(prefix);
      } else {
        assert Core(log) == Core(prefix) + [e];
      }
    } else {
      assert Core([]) == [];
    }
  }

  lemma {:induction false} CountOfBoth(count: seq<Event> -> int, share: Event -> int, c: seq<Event>, tail: seq<Event>)
    requires Additive(count, share)
    ensures count(c + tail) == count(c) + count(tail)
    decreases |tail|
  {
    if tail == [] {
      assert c + tail == c;
    } else {
      var (prefix, e) := (tail[..|tail| - 1], tail[|tail| - 1]);
      CountOfBoth(count, share, c, prefix);
      assert c + tail == (c + prefix) + [e] && tail == prefix + [e];
      assert count((c + prefix) + [e]) == count(c + prefix) + share(e);
    }
  }

  // Events in order of time, between two readings of the clock.
  ghost predicate InOrder(events: seq<Event>, lo: int, hi: int) {
    (forall i :: 0 <= i < |events| ==> lo <= events[i].at <= hi) &&
    forall i, j :: 0 <= i < j < |events| ==> events[i].at <= events[j].at
  }

  ghost predicate Are(events: seq<Event>, acts: seq<Action>) {
    |events| == |acts| && forall i :: 0 <= i < |acts| ==> events[i].action == acts[i]
  }

  // What q journaled since p, hooks aside.
  ghost function Added(p: Psv, q: Psv): seq<Event> {
    var (a, b) := (Core(p.env.log), Core(q.env.log));
    if |a| <= |b| then b[|a|..] else []
  }

  // q comes from p: beside hooks, exactly the given actions were journaled.
  ghost predicate Extended(p: Psv, q: Psv, acts: seq<Action>) {
    p.env.log <= q.env.log && p.env.oracle == q.env.oracle && p.env.now <= q.env.now &&
    Core(q.env.log) == Core(p.env.log) + Added(p, q) &&
    Are(Added(p, q), acts) && InOrder(Added(p, q), p.env.now, q.env.now)
  }

  lemma Compose(p: Psv, q: Psv, r: Psv, a: seq<Action>, b: seq<Action>)
    requires Extended(p, q, a) && Extended(q, r, b)
    ensures Extended(p, r, a + b)
  {
    assert Core(r.env.log) == Core(p.env.log) + (Added(p, q) + Added(q, r));
    assert Added(p, r) == Added(p, q) + Added(q, r);
  }

  lemma Nothing(p: Psv)
    ensures Extended(p, p, [])
  {
  }

  lemma NotedTrace(p: Psv, a: Action)
    ensures Extended(p, Noted(p, a), if a.Entered? || a.Left? then [] else [a])
  {
    var e := Event(p.env.now + Ask(p.env).elapsed, a);
    assert (p.env.log + [e])[..|p.env.log|] == p.env.log;
  }

  lemma EnterTrace(p: Psv, target: VmState)
    ensures Extended(p, Enter(p, target).psv, [])
  {
    if Allowed(p.state, target) {
      NotedTrace(p, Entered(target, if target == Init then 0 else Ask(p.env).hook));
    }
  }

  lemma {:induction false} WalkTrace(p: Psv, path: seq<VmState>)
    ensures Extended(p, Walk(p, path).psv, [])
    decreases path
  {
    if path != [] {
      var m := Enter(p, path[0]);
      EnterTrace(p, path[0]);
      if m.ok {
        WalkTrace(m.psv, path[1..]);
        Compose(p, m.psv, Walk(p, path).psv, [], []);
      }
    }
  }

  lemma ThenWalk(p: Psv, q: Psv, acts: seq<Action>, path: seq<VmState>)
    requires Extended(p, q, acts)
    ensures Extended(p, Walk(q, path).psv, acts)
  {
    WalkTrace(q, path);
    Compose(p, q, Walk(q, path).psv, acts, []);
    assert acts + [] == acts;
  }

  lemma BringUpTrace(p: Psv)
    requires Startable(p.state)
    ensures Extended(p, BringUp(p).psv, [])
  {
    hide Extended, Walk;
    var restarting := p.state == RestartStopped;
    var target := if restarting then PrestartAfterRestart else StartNetwork;
    EnterTrace(p, target);
    var m := Enter(p, target);
    if !m.ok {
      ThenWalk(p, m.psv, [], FAILURE);
      ThenWalk(p, m.psv, [], [StopNetwork, Stopped, Failed]);
    }
    var first := FirstHook(p);
    if first.ok {
      var t2 := if restarting then StartAfterRestart else StartStorage;
      var n := Enter(first.psv, t2);
      EnterTrace(first.psv, t2);
      var none: seq<Action> := [];
      Compose(p, first.psv, n.psv, none, none);
      assert none + none == none;
      ThenWalk(p, n.psv, none, FAILURE);
    }
  }

  ghost function StartVmActs(p: Psv): seq<Action> {
    if !Startable(p.state) || !BringUp(p).ok then []
    else
      var a := Ask(BringUp(p).psv.env);
      [Launched(a.launched, a.pid)]
  }

  lemma SettleTrace(p: Psv, restarting: bool)
    ensures Extended(p, Settle(p, restarting).psv, [])
  {
    var path := if restarting then [Restarted, Running] else [Running];
    WalkTrace(p, path);
    ThenWalk(p, Walk(p, path).psv, [], FAILURE);
  }

  lemma LaunchTrace(p: Psv, restarting: bool)
    ensures Extended(p, LaunchAndSettle(p, restarting).psv, [Launched(Ask(p.env).launched, Ask(p.env).pid)])
  {
    var acts := [Launched(Ask(p.env).launched, Ask(p.env).pid)];
    var l := Launch(p);
    NotedTrace(p, acts[0]);
    if l.ok {
      SettleTrace(l.psv, restarting);
      Compose(p, l.psv, Settle(l.psv, restarting).psv, acts, []);
      assert acts + [] == acts;
    } else {
      ThenWalk(p, l.psv, acts, FAILURE);
    }
  }

  lemma StartVmTrace(p: Psv)
    ensures Extended(p, StartVm(p).psv, StartVmActs(p))
  {
    if !Startable(p.state) {
      Nothing(p);
    } else {
      BringUpTrace(p);
      var up := BringUp(p);
      if up.ok {
        LaunchTrace(up.psv, p.state == RestartStopped);
        Compose(p, up.psv, StartVm(p).psv, [], StartVmActs(p));
        assert [] + StartVmActs(p) == StartVmActs(p);
      }
    }
  }

  ghost function TerminateActs(p: Psv): seq<Action> {
    if p.pid == 0 then [] else [Terminated(Ask(p.env).term)]
  }

  lemma TerminateTrace(p: Psv, q: Psv)
    requires Extended(p, q, [])
    ensures Extended(p, Terminate(q).psv, TerminateActs(q))
  {
    if q.pid != 0 {
      var acts := TerminateActs(q);
      NotedTrace(q, acts[0]);
      Compose(p, q, Noted(q, acts[0]), [], acts);
      assert [] + acts == acts;
      ThenWalk(p, Noted(q, acts[0]), acts, FAILURE);
    }
  }

  ghost function StopActs(p: Psv, reboot: bool): seq<Action> {
    if p.state != Running then []
    else
      var m := Enter(p, if reboot then PrestopBeforeRestart else Stopping);
      if m.ok then TerminateActs(m.psv)
      else if FailureState(m.psv).ok then TerminateActs(FailureState(m.psv).psv) else []
  }

  lemma StopTrace(p: Psv, reboot: bool)
    ensures Extended(p, StopOrReboot(p, reboot).psv, StopActs(p, reboot))
  {
    if p.state != Running {
      Nothing(p);
    } else {
      var target := if reboot then PrestopBeforeRestart else Stopping;
      var m := Enter(p, target);
      EnterTrace(p, target);
      if m.ok {
        TerminateTrace(p, m.psv);
      } else {
        ThenWalk(p, m.psv, [], FAILURE);
        TerminateTrace(p, FailureState(m.psv).psv);
      }
    }
  }

  ghost function IfQueued(queued: bool): seq<Action> { if queued then [RebootAccepted] else [] }

  lemma RequestRebootTrace(p: Psv, path: seq<VmState>, rmo: RebootManager)
    ensures var d := RequestReboot(p, path, rmo); Extended(p, d.psv, IfQueued(d.queued))
  {
    var m := Walk(p, path);
    WalkTrace(p, path);
    if m.ok {
      NotedTrace(m.psv, RebootAccepted);
      Compose(p, m.psv, Noted(m.psv, RebootAccepted), [], [RebootAccepted]);
      assert [] + [RebootAccepted] == [RebootAccepted];
      ThenWalk(p, m.psv, [], FAILURE);
    }
  }

  lemma ExitSwitchTrace(p: Psv, code: nat, rmo: RebootManager)
    ensures var d := ExitSwitch(p, code, rmo); Extended(p, d.psv, IfQueued(d.queued))
  {
    hide Extended, RequestReboot, Walk;
    match p.state
    case PrestopBeforeRestart =>
      if code == 0 { RequestRebootTrace(p, [Restarting, RestartStopped], rmo); } else { Nothing(p); }
    case Running =>
      if code == 0 {
        RequestRebootTrace(p, [PrestopBeforeRestart, Restarting, RestartStopped], rmo);
      } else if code == 1 || code == 2 {
        WalkTrace(p, DOWN);
      } else {
        Nothing(p);
      }
    case Stopping => WalkTrace(p, DOWN);
    case _ => Nothing(p);
  }

  lemma OnExitTrace(p: Psv, code: nat, rmo: RebootManager)
    ensures var d := OnExit(p, code, rmo); Extended(p, d.psv, IfQueued(d.queued))
  {
    hide Extended, ExitSwitch, Walk;
    var d := ExitSwitch(p, code, rmo);
    ExitSwitchTrace(p, code, rmo);
    if d.rc == 0 && code >= 3 {
      ThenWalk(p, d.psv, IfQueued(d.queued), FAILURE);
      PidDoesNotMatter(p, Walk(d.psv, FAILURE).psv, IfQueued(d.queued));
    }
  }

  lemma PidDoesNotMatter(p: Psv, q: Psv, acts: seq<Action>)
    requires Extended(p, q, acts)
    ensures Extended(p, q.(pid := 0), acts)
  {
  }

  ghost function LookActs(vm: Vm): seq<Action> {
    [Probed(Ask(vm.psv.env).probe)] + IfQueued(LookAtChild(vm).queued)
  }

  lemma LookTrace(vm: Vm)
    ensures Extended(vm.psv, LookAtChild(vm).vm.psv, LookActs(vm))
  {
    var probe := Ask(vm.psv.env).probe;
    var seen := Noted(vm.psv, Probed(probe));
    NotedTrace(vm.psv, Probed(probe));
    match probe
    case Vanished =>
      OnExitTrace(seen, 4, Accepting);
      var d := OnExit(seen, 4, Accepting);
      Compose(vm.psv, seen, d.psv, [Probed(probe)], IfQueued(d.queued));
    case Reaped(status) =>
      if status.JobStopped? {
        assert LookActs(vm) == [Probed(probe)];
      } else {
        var d := OnExit(seen, ExitCode(status), Accepting);
        OnExitTrace(seen, ExitCode(status), Accepting);
        Compose(vm.psv, seen, d.psv, [Probed(probe)], IfQueued(d.queued));
        ThenWalk(vm.psv, d.psv, LookActs(vm), FAILURE);
      }
    case Attached(rc) =>
      assert LookActs(vm) == [Probed(probe)];
  }

  ghost function AttemptActs(vm: Vm): seq<Action> {
    var rc := Ask(vm.psv.env).generate;
    var g := Noted(vm.psv, Generated(rc));
    if rc != 0 then [Generated(rc)]
    else
      [Generated(rc)] + (StartVmActs(g) +
        (if StartVm(g).rc == 0 then LookActs(vm.(psv := StartVm(g).psv)) else []))
  }

  lemma AttemptTrace(vm: Vm)
    ensures Extended(vm.psv, Attempt(vm).vm.psv, AttemptActs(vm))
  {
    var rc := Ask(vm.psv.env).generate;
    var g := Noted(vm.psv, Generated(rc));
    NotedTrace(vm.psv, Generated(rc));
    if rc != 0 {
      ThenWalk(vm.psv, g, [Generated(rc)], FAILURE);
    } else {
      var d := StartVm(g);
      StartVmTrace(g);
      if d.rc == 0 {
        LookTrace(vm.(psv := d.psv));
        Compose(g, d.psv, Attempt(vm).vm.psv, StartVmActs(g), LookActs(vm.(psv := d.psv)));
      } else {
        assert StartVmActs(g) + [] == StartVmActs(g);
      }
      Compose(vm.psv, g, Attempt(vm).vm.psv, [Generated(rc)], AttemptActs(vm)[1..]);
    }
  }

  ghost function StartActs(vm: Vm): seq<Action> {
    if CountFail(vm) || Counting(vm).psv.state == Failed then [Counted]
    else [Counted, Stamped] + AttemptActs(Stamping(Counting(vm)))
  }

  lemma StampingTrace(vm: Vm)
    ensures Extended(vm.psv, Stamping(Counting(vm)).psv, [Counted, Stamped])
  {
    var counted := Counting(vm);
    NotedTrace(vm.psv, Counted);
    NotedTrace(counted.psv, Stamped);
    Compose(vm.psv, counted.psv, Stamping(counted).psv, [Counted], [Stamped]);
    assert [Counted] + [Stamped] == [Counted, Stamped];
  }

  lemma StartTrace(vm: Vm)
    ensures Extended(vm.psv, StartRequest(vm).vm.psv, StartActs(vm))
  {
    var counted := Counting(vm);
    NotedTrace(vm.psv, Counted);
    if CountFail(vm) {
      ThenWalk(vm.psv, counted.psv, [Counted], FAILURE);
    } else if counted.psv.state != Failed {
      var st := Stamping(counted);
      StampingTrace(vm);
      AttemptTrace(st);
      Compose(vm.psv, st.psv, Attempt(st).vm.psv, [Counted, Stamped], AttemptActs(st));
    }
  }

  lemma ExitEventTrace(vm: Vm, status: WaitStatus)
    ensures var h := ExitEvent(vm, status);
      Extended(vm.psv, h.vm.psv, [Delivered(status)] + IfQueued(h.queued))
  {
    var seen := Noted(vm.psv, Delivered(status));
    NotedTrace(vm.psv, Delivered(status));
    if status.Exited? {
      var d := OnExit(seen, status.code, Accepting);
      OnExitTrace(seen, status.code, Accepting);
      Compose(vm.psv, seen, d.psv, [Delivered(status)], IfQueued(d.queued));
    } else {
      ThenWalk(vm.psv, seen, [Delivered(status)], FAILURE);
      assert [Delivered(status)] + IfQueued(false) == [Delivered(status)];
    }
  }

  // ---- steps and runs --------------------------------------------------------

  // What a step journals for machine v.
  ghost function StepActs(s: Sys, c: Command, v: nat): seq<Action>
    requires WellFormed(s) && v < |s.vms|
  {
    match c
    case Start(w) => if w == v then StartActs(s.vms[v]) else []
    case Stop(w) => if w == v then StopActs(s.vms[v].psv, false) else []
    case Reboot(w) => if w == v then StopActs(s.vms[v].psv, true) else []
    case Exit(w, status) =>
      if w == v && Unseen(s.vms[v].psv.env.log) > 0
      then [Delivered(status)] + IfQueued(ExitEvent(s.vms[v], status).queued) else []
    case StartPopped => if s.pending == Some(v) then StartActs(s.vms[v]) else []
    case _ => []
  }

  lemma StepTrace(s: Sys, c: Command, v: nat)
    requires WellFormed(s) && v < |s.vms|
    ensures Extended(s.vms[v].psv, Step(s, c).vms[v].psv, StepActs(s, c, v))
  {
    hide Extended, StartActs, StopActs, StartRequest, StopOrReboot, ExitEvent, Unseen;
    var p := s.vms[v].psv;
    Nothing(p);
    match c
    case Start(w) => if w == v { StartTrace(s.vms[v]); }
    case Stop(w) => if w == v { StopTrace(p, false); }
    case Reboot(w) => if w == v { StopTrace(p, true); }
    case ResetFail(w) => if w == v { EnterTrace(p, Init); }
    case Exit(w, status) => if w == v { ExitEventTrace(s.vms[v], status); }
    case Pop =>
    case StartPopped => if s.pending == Some(v) { StartTrace(s.vms[v]); }
  }

  /** Along an execution the journal of a machine only grows, the world that answers it
      stays the same and its clock does not go back. */
  lemma {:induction false} JournalsGrow(x: Execution, i: nat, j: nat, v: nat)
    requires InRange(x, j, v) && i <= j
    ensures var (p, q) := (At(x, i, v).psv, At(x, j, v).psv);
      p.env.log <= q.env.log && p.env.oracle == q.env.oracle && p.env.now <= q.env.now
    decreases j
  {
    hide Step;
    if i < j {
      JournalsGrow(x, i, j - 1, v);
      assert Follows(x, j - 1);
      StepTrace(x.states[j - 1], x.cs[j - 1], v);
    }
  }
}
