/** Process accounting: when hooks succeed, a machine is up exactly while one of its
    children has not been seen to end, if and only if it was never hit by one of the
    steps that leave a child behind.
  */
module Accounting {
  import opened Wrappers
  import opened Lifecycle
  import opened ProcessSpec
  import opened DirectorSpec
  import opened Executions
  import opened HookHistory
  import opened Traces
  import opened StartExactness
  import opened RestartLimit

  ghost predicate HooksOblige(oracle: nat -> Answer) { forall n: nat :: oracle(n).hook == 0 }

  // ---- counting children --------------------------------------------------------

  ghost function Sum(acts: seq<Action>): int {
    if acts == [] then 0 else Sum(acts[..|acts| - 1]) + Weight(acts[|acts| - 1])
  }

  lemma UnseenIsAdditive()
    ensures Additive(Unseen, (e: Event) => Weight(e.action))
  {
    forall log: seq<Event>, e: Event ensures Unseen(log + [e]) == Unseen(log) + Weight(e.action) {
      assert (log + [e])[..|log|] == log;
    }
  }

  lemma {:induction false} UnseenOf(tail: seq<Event>, acts: seq<Action>)
    requires Are(tail, acts)
    ensures Unseen(tail) == Sum(acts)
    decreases |tail|
  {
    if tail != [] { UnseenOf(tail[..|tail| - 1], acts[..|acts| - 1]); }
  }

  lemma UnseenGrows(p: Psv, q: Psv, acts: seq<Action>)
    requires Extended(p, q, acts)
    ensures Unseen(q.env.log) == Unseen(p.env.log) + Sum(acts)
  {
    var share := (e: Event) => Weight(e.action);
    UnseenIsAdditive();
    CountOfCore(Unseen, share, p.env.log);
    CountOfCore(Unseen, share, q.env.log);
    CountOfBoth(Unseen, share, Core(p.env.log), Added(p, q));
    UnseenOf(Added(p, q), acts);
  }

  lemma {:induction false} SumAppend(a: seq<Action>, b: seq<Action>)
    ensures Sum(a + b) == Sum(a) + Sum(b)
    decreases |b|
  {
    if b == [] {
      assert a + b == a;
    } else {
      assert (a + b)[..|a + b| - 1] == a + b[..|b| - 1];
      SumAppend(a, b[..|b| - 1]);
    }
  }

  lemma SumOne(a: Action)
    ensures Sum([a]) == Weight(a)
  {
    assert [a][..0] == [];
  }

  // ---- operations when hooks succeed ----------------------------------------------

  lemma FailureArrives(p: Psv)
    requires HooksOblige(p.env.oracle)
    ensures FailureState(p).ok && FailureState(p).psv.state == Failed
    ensures FailureState(p).psv.env.oracle == p.env.oracle
  {
    FailureExactly(p);
  }

  lemma PathArrives(p: Psv, path: seq<VmState>)
    requires HooksOblige(p.env.oracle) && path != [] && IsPath(p.state, path)
    ensures Walk(p, path).ok && Walk(p, path).psv.state == path[|path| - 1]
    ensures Walk(p, path).psv.env.oracle == p.env.oracle
  {
    WalkExactly(p, path);
    WalkArrives(p, path);
  }

  lemma StartArrives(p: Psv)
    requires HooksOblige(p.env.oracle) && Startable(p.state)
    ensures StartVm(p).rc == 0 <==> Later(p, 2).launched
    ensures StartVm(p).psv.state == if Later(p, 2).launched then Running else Failed
    ensures StartVmActs(p) == [Launched(Later(p, 2).launched, Later(p, 2).pid)]
    ensures StartVm(p).psv.env.oracle == p.env.oracle
  {
    StartSucceedsExactly(p);
    LaunchReachedExactly(p);
    StartVmTrace(p);
    var up := BringUp(p).psv;
    ShiftAnswers(p, up, 2);
    assert Ask(up.env) == Later(up, 0) == Later(p, 2);
    FailureArrives(Launch(up).psv);
  }

  // A child belongs to the machine.
  predicate Up(s: VmState) { s == Running || s == Stopping || s == PrestopBeforeRestart }

  // Where psv_onexit leads when hooks succeed and the manager accepts.
  ghost function ExitTarget(from: VmState, code: nat): VmState
    requires Up(from)
  {
    if code >= 3 then Failed
    else if code == 0 && from != Stopping then RestartStopped
    else if from == PrestopBeforeRestart then PrestopBeforeRestart
    else Stopped
  }

  lemma RebootArrives(p: Psv, path: seq<VmState>)
    requires HooksOblige(p.env.oracle)
    requires if p.state == Running then path == [PrestopBeforeRestart, Restarting, RestartStopped]
             else p.state == PrestopBeforeRestart && path == [Restarting, RestartStopped]
    ensures var d := RequestReboot(p, path, Accepting);
      d.rc == 0 && d.queued && d.psv.state == RestartStopped && d.psv.env.oracle == p.env.oracle
  {
    assert IsPath(p.state, path) by {
      assert [PrestopBeforeRestart, Restarting, RestartStopped][1..] == [Restarting, RestartStopped];
      assert IsPath(RestartStopped, []);
      assert IsPath(Restarting, [RestartStopped]);
      assert IsPath(PrestopBeforeRestart, [Restarting, RestartStopped]);
    }
    PathArrives(p, path);
  }

  lemma DownArrives(p: Psv)
    requires HooksOblige(p.env.oracle)
    ensures GoDown(p).rc == 0 && GoDown(p).psv.state == Stopped && !GoDown(p).queued
    ensures GoDown(p).psv.env.oracle == p.env.oracle
  {
    assert IsPath(p.state, DOWN) by {
      assert DOWN[1..] == [StopNetwork, Stopped];
      assert IsPath(Stopped, []);
      assert IsPath(StopNetwork, [Stopped]);
      assert IsPath(StopStorage, [StopNetwork, Stopped]);
    }
    PathArrives(p, DOWN);
  }

  lemma SwitchArrives(p: Psv, code: nat)
    requires HooksOblige(p.env.oracle) && Up(p.state)
    ensures var d := ExitSwitch(p, code, Accepting);
      d.rc == 0 && d.psv.env.oracle == p.env.oracle &&
      (d.queued <==> code == 0 && p.state != Stopping) &&
      (code < 3 ==> d.psv.state == ExitTarget(p.state, code))
  {
    hide RequestReboot, GoDown;
    if code == 0 && p.state == Running {
      RebootArrives(p, [PrestopBeforeRestart, Restarting, RestartStopped]);
    } else if code == 0 && p.state == PrestopBeforeRestart {
      RebootArrives(p, [Restarting, RestartStopped]);
    } else {
      DownArrives(p);
    }
  }

  lemma OnExitArrives(p: Psv, code: nat)
    requires HooksOblige(p.env.oracle) && Up(p.state)
    ensures var d := OnExit(p, code, Accepting);
      d.rc == 0 && d.psv.state == ExitTarget(p.state, code) &&
      (d.queued <==> code == 0 && p.state != Stopping)
  {
    SwitchArrives(p, code);
    FailureArrives(ExitSwitch(p, code, Accepting).psv);
  }

  // A stop or reboot whose signal cannot be sent.
  ghost predicate SignalFails(p: Psv) { p.state == Running && p.pid != 0 && Later(p, 1).term < 0 }

  // Where a stop or a reboot leads when hooks succeed: FAILED when the signal cannot be sent.
  lemma StopArrives(p: Psv, reboot: bool)
    requires HooksOblige(p.env.oracle) && p.state == Running
    ensures StopActs(p, reboot) == if p.pid == 0 then [] else [Terminated(Later(p, 1).term)]
    ensures StopOrReboot(p, reboot).psv.state ==
      if SignalFails(p) then Failed else if reboot then PrestopBeforeRestart else Stopping
  {
    var m := Enter(p, if reboot then PrestopBeforeRestart else Stopping);
    assert m.ok && m.psv.pid == p.pid by { assert Ask(p.env).hook == 0; }
    ShiftAnswers(p, m.psv, 1);
    assert Ask(m.psv.env) == Later(m.psv, 0) == Later(p, 1);
    FailureArrives(Noted(m.psv, Terminated(Later(p, 1).term)));
  }

  // ---- the account ------------------------------------------------------------------

  ghost predicate Resting(s: VmState) {
    Up(s) || s == Init || s == Stopped || s == RestartStopped || s == Failed
  }

  ghost predicate Accounted(p: Psv) {
    Resting(p.state) && Unseen(p.env.log) == if Up(p.state) then 1 else 0
  }

  lemma LookKeepsAccount(vm: Vm)
    requires HooksOblige(vm.psv.env.oracle)
    requires vm.psv.state == Running && Unseen(vm.psv.env.log) == 1
    ensures Accounted(LookAtChild(vm).vm.psv)
    ensures LookAtChild(vm).queued <==> LookAtChild(vm).vm.psv.state == RestartStopped
  {
    var probe := Ask(vm.psv.env).probe;
    var seen := Noted(vm.psv, Probed(probe));
    var h := LookAtChild(vm);
    LookTrace(vm);
    UnseenGrows(vm.psv, h.vm.psv, LookActs(vm));
    SumAppend([Probed(probe)], IfQueued(h.queued));
    SumOne(Probed(probe));
    SumOne(RebootAccepted);
    OnExitArrives(seen, 4);
    if probe.Reaped? { OnExitArrives(seen, ExitCode(probe.status)); }
  }

  lemma NotedKeepsChildren(p: Psv, a: Action)
    requires Weight(a) == 0
    ensures Unseen(Noted(p, a).env.log) == Unseen(p.env.log)
  {
    var e := Event(p.env.now + Ask(p.env).elapsed, a);
    assert (p.env.log + [e])[..|p.env.log|] == p.env.log;
  }

  lemma StartVmKeepsAccount(p: Psv)
    requires HooksOblige(p.env.oracle) && Accounted(p) && Startable(p.state)
    ensures Accounted(StartVm(p).psv)
  {
    StartArrives(p);
    StartVmTrace(p);
    UnseenGrows(p, StartVm(p).psv, StartVmActs(p));
    SumOne(StartVmActs(p)[0]);
  }

  lemma FailureKeepsChildren(p: Psv)
    ensures Unseen(FailureState(p).psv.env.log) == Unseen(p.env.log)
  {
    WalkTrace(p, FAILURE);
    UnseenGrows(p, FailureState(p).psv, []);
  }

  // The failure walk of a machine that is up leaves its child behind.
  lemma FailureAccountsExactly(p: Psv, was: VmState)
    requires HooksOblige(p.env.oracle) && Unseen(p.env.log) == if Up(was) then 1 else 0
    ensures FailureState(p).psv.state == Failed && Unseen(FailureState(p).psv.env.log) == Unseen(p.env.log)
    ensures Accounted(FailureState(p).psv) <==> !Up(was)
  {
    FailureArrives(p);
    FailureKeepsChildren(p);
  }

  lemma NotStartable(p: Psv)
    requires !Startable(p.state)
    ensures StartVm(p) == Done(p, -1, false)
  {
  }

  lemma AttemptAccountsExactly(vm: Vm)
    requires HooksOblige(vm.psv.env.oracle) && Accounted(vm.psv) && vm.psv.state != Failed
    ensures Accounted(Attempt(vm).vm.psv) <==> !(Up(vm.psv.state) && Later(vm.psv, 0).generate != 0)
    ensures Later(vm.psv, 0).generate != 0 ==>
      Attempt(vm).vm.psv.state == Failed && Unseen(Attempt(vm).vm.psv.env.log) == Unseen(vm.psv.env.log)
  {
    hide FailureState, StartVm, LookAtChild, Unseen;
    var rc := Ask(vm.psv.env).generate;
    assert Later(vm.psv, 0) == Ask(vm.psv.env);
    var g := Noted(vm.psv, Generated(rc));
    NotedKeepsChildren(vm.psv, Generated(rc));
    if rc != 0 {
      FailureAccountsExactly(g, vm.psv.state);
    } else if Startable(g.state) {
      StartArrives(g);
      StartVmKeepsAccount(g);
      if StartVm(g).rc == 0 { LookKeepsAccount(vm.(psv := StartVm(g).psv)); }
    } else {
      NotStartable(g);
    }
  }

  // A start request for a machine that is up, over the budget or without a configuration.
  ghost predicate StartStrands(vm: Vm) {
    Up(vm.psv.state) && (CountFail(vm) || Later(vm.psv, 2).generate != 0)
  }

  lemma StartAccountsExactly(vm: Vm)
    requires HooksOblige(vm.psv.env.oracle) && Accounted(vm.psv)
    ensures Accounted(StartRequest(vm).vm.psv) <==> !StartStrands(vm)
    ensures StartStrands(vm) ==>
      StartRequest(vm).vm.psv.state == Failed && Unseen(StartRequest(vm).vm.psv.env.log) == 1
  {
    hide FailureState, Attempt, Unseen, CountSince, Prune;
    var counted := Counting(vm);
    NotedKeepsChildren(vm.psv, Counted);
    if CountFail(vm) {
      FailureAccountsExactly(counted.psv, vm.psv.state);
    } else if counted.psv.state != Failed {
      var st := Stamping(counted);
      NotedKeepsChildren(counted.psv, Stamped);
      assert Later(st.psv, 0) == Later(vm.psv, 2);
      AttemptAccountsExactly(st);
    }
  }

  lemma StopKeepsChildren(p: Psv, reboot: bool)
    requires HooksOblige(p.env.oracle) && p.state == Running
    ensures Unseen(StopOrReboot(p, reboot).psv.env.log) == Unseen(p.env.log)
  {
    StopArrives(p, reboot);
    StopTrace(p, reboot);
    UnseenGrows(p, StopOrReboot(p, reboot).psv, StopActs(p, reboot));
    SumOne(Terminated(Later(p, 1).term));
  }

  lemma StopAccountsExactly(p: Psv, reboot: bool)
    requires HooksOblige(p.env.oracle) && Accounted(p)
    ensures Accounted(StopOrReboot(p, reboot).psv) <==> !SignalFails(p)
  {
    if p.state == Running {
      StopArrives(p, reboot);
      StopKeepsChildren(p, reboot);
    }
  }

  lemma ResetKeepsAccount(p: Psv)
    requires Accounted(p)
    ensures Accounted(ResetFailure(p).psv)
  {
    EnterTrace(p, Init);
    UnseenGrows(p, Enter(p, Init).psv, []);
  }

  // A delivered exit is one child less to see.
  lemma ExitCounts(vm: Vm, status: WaitStatus)
    ensures Unseen(ExitEvent(vm, status).vm.psv.env.log) == Unseen(vm.psv.env.log) - 1
  {
    hide Extended, Unseen, ExitEvent;
    var h := ExitEvent(vm, status);
    ExitEventTrace(vm, status);
    UnseenGrows(vm.psv, h.vm.psv, [Delivered(status)] + IfQueued(h.queued));
    SumAppend([Delivered(status)], IfQueued(h.queued));
    SumOne(Delivered(status));
    SumOne(RebootAccepted);
  }

  // An exit that psv_onexit ignores although no child is left.
  predicate ExitIgnored(p: Psv, status: WaitStatus) {
    p.state == PrestopBeforeRestart && (status == Exited(1) || status == Exited(2))
  }

  lemma ExitLands(vm: Vm, status: WaitStatus)
    requires HooksOblige(vm.psv.env.oracle) && Up(vm.psv.state)
    ensures var h := ExitEvent(vm, status);
      (if ExitIgnored(vm.psv, status) then h.vm.psv.state == PrestopBeforeRestart
       else h.vm.psv.state == Failed || h.vm.psv.state == Stopped || h.vm.psv.state == RestartStopped) &&
      (h.queued <==> h.vm.psv.state == RestartStopped)
  {
    hide OnExit, FailureState;
    var seen := Noted(vm.psv, Delivered(status));
    if status.Exited? { OnExitArrives(seen, status.code); } else { FailureArrives(seen); }
  }

  lemma ExitAccountsExactly(vm: Vm, status: WaitStatus)
    requires HooksOblige(vm.psv.env.oracle) && Accounted(vm.psv) && Unseen(vm.psv.env.log) > 0
    ensures Accounted(ExitEvent(vm, status).vm.psv) <==> !ExitIgnored(vm.psv, status)
    ensures ExitEvent(vm, status).queued <==> ExitEvent(vm, status).vm.psv.state == RestartStopped
  {
    hide ExitEvent, Unseen;
    ExitCounts(vm, status);
    ExitLands(vm, status);
  }

  // ---- steps and executions ---------------------------------------------------------------

  // Steps that leave a child of machine v without its machine or the machine without child.
  ghost predicate Unbalances(s: Sys, c: Command, v: nat)
    requires WellFormed(s) && v < |s.vms|
  {
    var vm := s.vms[v];
    (Starts(s, c, v) && StartStrands(vm)) ||
    ((c == Stop(v) || c == Reboot(v)) && SignalFails(vm.psv)) ||
    (c.Exit? && c.v == v && ExitIgnored(vm.psv, c.status))
  }

  /** When hooks succeed, a step keeps the account of a machine if and only if it is none
      of these: a start of a machine that is up, over the budget or with a failed
      generation; a stop or reboot whose signal cannot be sent; an exit with code 1 or 2
      while a reboot was asked for. */
  lemma StepAccountsExactly(s: Sys, c: Command, v: nat)
    requires WellFormed(s) && v < |s.vms|
    requires HooksOblige(s.vms[v].psv.env.oracle) && Accounted(s.vms[v].psv)
    ensures Accounted(Step(s, c).vms[v].psv) <==> !Unbalances(s, c, v)
  {
    hide StartStrands, SignalFails, StartRequest, StopOrReboot, ExitEvent, Unseen, ResetFailure;
    var vm := s.vms[v];
    assert Up(vm.psv.state) ==> Unseen(vm.psv.env.log) > 0;
    match c
    case Start(w) => if w == v { StartAccountsExactly(vm); }
    case Stop(w) => if w == v { StopAccountsExactly(vm.psv, false); }
    case Reboot(w) => if w == v { StopAccountsExactly(vm.psv, true); }
    case ResetFail(w) => if w == v { ResetKeepsAccount(vm.psv); }
    case Exit(w, status) =>
      if w == v && Unseen(vm.psv.env.log) > 0 { ExitAccountsExactly(vm, status); }
    case Pop =>
    case StartPopped => if s.pending == Some(v) { StartAccountsExactly(vm); }
  }

  ghost predicate UnbalancedAt(x: Execution, k: nat, v: nat)
    requires Possible(x) && k < |x.cs| && v < |x.states[0].vms|
  {
    Unbalances(x.states[k], x.cs[k], v)
  }

  ghost predicate AccountedAt(x: Execution, i: nat, v: nat)
    requires InRange(x, i, v)
  {
    Accounted(At(x, i, v).psv)
  }

  lemma {:induction false} StaysAccounted(x: Execution, i: nat, v: nat)
    requires InRange(x, i, v) && Fresh(x.states[0]) && HooksOblige(At(x, 0, v).psv.env.oracle)
    requires forall k {:trigger UnbalancedAt(x, k, v)} :: 0 <= k < i ==> !UnbalancedAt(x, k, v)
    ensures AccountedAt(x, i, v)
    decreases i
  {
    if i > 0 {
      hide Step, Accounted, Unbalances;
      StaysAccounted(x, i - 1, v);
      JournalsGrow(x, 0, i - 1, v);
      assert Follows(x, i - 1) && !UnbalancedAt(x, i - 1, v);
      StepAccountsExactly(x.states[i - 1], x.cs[i - 1], v);
    }
  }

  /** Process accounting: when the hooks of a machine succeed, it is accounted for in all
      of the first n states of an execution if and only if none of the steps between them
      unbalances it; what happens to other machines does not matter. */
  lemma AccountedExactly(x: Execution, n: nat, v: nat)
    requires InRange(x, n, v) && Fresh(x.states[0]) && HooksOblige(At(x, 0, v).psv.env.oracle)
    ensures (forall i {:trigger AccountedAt(x, i, v)} :: 0 <= i <= n ==> AccountedAt(x, i, v)) <==>
      (forall k {:trigger UnbalancedAt(x, k, v)} :: 0 <= k < n ==> !UnbalancedAt(x, k, v))
  {
    hide Step, Accounted, Unbalances;
    if forall k {:trigger UnbalancedAt(x, k, v)} :: 0 <= k < n ==> !UnbalancedAt(x, k, v) {
      forall i | 0 <= i <= n ensures AccountedAt(x, i, v) { StaysAccounted(x, i, v); }
    }
    if forall i {:trigger AccountedAt(x, i, v)} :: 0 <= i <= n ==> AccountedAt(x, i, v) {
      forall k | 0 <= k < n ensures !UnbalancedAt(x, k, v) {
        JournalsGrow(x, 0, k, v);
        assert AccountedAt(x, k, v) && AccountedAt(x, k + 1, v) && Follows(x, k);
        StepAccountsExactly(x.states[k], x.cs[k], v);
      }
    }
  }

  // ---- children left behind -----------------------------------------------------------------

  /** A stop whose signal cannot be sent leaves a child behind a FAILED machine. */
  lemma UnsentSignalStrandsChild(p: Psv, reboot: bool)
    requires HooksOblige(p.env.oracle) && Unseen(p.env.log) == 1 && SignalFails(p)
    ensures var q := StopOrReboot(p, reboot).psv; q.state == Failed && Unseen(q.env.log) == 1
  {
    StopArrives(p, reboot);
    StopKeepsChildren(p, reboot);
  }

  /** A start request drives a machine that is up to FAILED and leaves its child behind,
      when it is over the budget or its configuration cannot be generated: both are looked
      at before the state. */
  lemma StartStrandsChild(vm: Vm)
    requires HooksOblige(vm.psv.env.oracle) && Up(vm.psv.state) && Unseen(vm.psv.env.log) == 1
    requires CountFail(vm) || Later(vm.psv, 2).generate != 0
    ensures var q := StartRequest(vm).vm.psv; q.state == Failed && Unseen(q.env.log) == 1
  {
    StartAccountsExactly(vm);
  }

  // No question takes time, everything succeeds and the child goes on running.
  ghost predicate Instant(oracle: nat -> Answer) {
    forall n: nat :: oracle(n) == Answer(0, 0, true, 7, 0, 0, Attached(0))
  }

  lemma {:induction false} InstantClock(e: Env, acts: seq<Action>)
    requires Instant(e.oracle)
    ensures NoteAll(e, acts).now == e.now && NoteAll(e, acts).oracle == e.oracle
    decreases acts
  {
    if acts != [] { InstantClock(Note(e, acts[0]), acts[1..]); }
  }

  lemma InstantAttempt(vm: Vm)
    requires vm.psv.state == Init && Instant(vm.psv.env.oracle)
    ensures var q := Attempt(vm).vm.psv;
      q.state == Running && q.env.now == vm.psv.env.now && q.env.oracle == vm.psv.env.oracle
  {
    hide StartVm, FailureState, OnExit;
    var g := Noted(vm.psv, Generated(0));
    StartSucceedsExactly(g);
    InstantClock(g.env, StartSequence(g.state, StartVm(g).psv.pid));
  }

  lemma InstantStart(vm: Vm)
    requires FreshVm(vm) && Instant(vm.psv.env.oracle)
    ensures var t := StartRequest(vm).vm;
      t.psv.state == Running && t.startups == [vm.psv.env.now] &&
      t.psv.env.now == vm.psv.env.now && t.config == vm.config && t.psv.env.oracle == vm.psv.env.oracle
  {
    hide Attempt;
    StartRequestIsAttempt(vm);
    var st := Stamping(Counting(vm));
    InstantAttempt(st);
    AttemptKeepsQueue(st);
  }

  lemma InstantStartAccounts(vm: Vm)
    requires FreshVm(vm) && Instant(vm.psv.env.oracle)
    ensures Unseen(StartRequest(vm).vm.psv.env.log) == 1
  {
    assert Accounted(vm.psv);
    InstantStart(vm);
    hide StartRequest;
    StartAccountsExactly(vm);
  }

  /** From a fresh director: with a maxrestart of 0 a second start request within the
      window leaves the machine in FAILED and its child running. */
  lemma SecondStartStrandsChild(x: Execution)
    requires Possible(x) && Fresh(x.states[0]) && x.states[0].vms != [] && x.cs == [Start(0), Start(0)]
    requires var vm := At(x, 0, 0);
      Instant(vm.psv.env.oracle) && vm.config.maxrestart == 0 && vm.config.maxrestarttime >= 0
    ensures At(x, 2, 0).psv.state == Failed && Unseen(At(x, 2, 0).psv.env.log) == 1
  {
    hide Step, StartRequest, Unseen;
    assert Follows(x, 0) && Follows(x, 1);
    StartStepStarts(x.states[0], Start(0), 0);
    StartStepStarts(x.states[1], Start(0), 0);
    InstantStart(At(x, 0, 0));
    InstantStartAccounts(At(x, 0, 0));
    StartStrandsChild(At(x, 1, 0));
  }
}
