/** What every step of the director answers and where it leaves its machine, as functions of
    the answers of the world alone: return codes by their numbers, last states, process ids
    and reboot requests.
  */
module StepOutcomes {
  import opened Wrappers
  import opened Lifecycle
  import opened ProcessSpec
  import opened DirectorSpec
  import opened Executions
  import opened Bracketing
  import opened StartExactness
  import opened RestartLimit
  import opened Accounting
  import opened FailurePaths

  // ---- stops ------------------------------------------------------------------------

  // The answers with which a stop of a RUNNING machine returns 0.
  ghost predicate StopGoes(p: Psv) {
    if Hook(p, 0) then p.pid == 0 || Later(p, 1).term >= 0 || Fine(p, 2, 6)
    else Fine(p, 1, 5) && (p.pid == 0 || Later(p, 5).term >= 0 || Fine(p, 6, 10))
  }

  lemma TerminateReturns(p: Psv, q: Psv, i: nat)
    requires Behind(p, q, i)
    ensures Terminate(q).rc == if q.pid == 0 || Later(p, i).term >= 0 || Fine(p, i + 1, i + 5) then 0 else -1
    ensures Terminate(q).psv.pid == q.pid
  {
    hide FailureState;
    assert Ask(q.env) == Later(p, i);
    var r := Noted(q, Terminated(Later(p, i).term));
    FailureEnds(p, r, i + 1);
    FailureKeepsPid(r);
  }

  /** A stop or a reboot returns 0 if and only if the machine is RUNNING and the signal was
      sent, or there is no child to signal, or a failure walk that was needed succeeded. */
  lemma StopReturnsExactly(p: Psv, reboot: bool)
    ensures StopOrReboot(p, reboot).rc == if p.state == Running && StopGoes(p) then 0 else -1
    ensures StopOrReboot(p, reboot).psv.pid == p.pid
  {
    if p.state == Running {
      hide FailureState, Terminate, Fine;
      assert Ask(p.env) == Later(p, 0);
      var m := Enter(p, if reboot then PrestopBeforeRestart else Stopping);
      TerminateReturns(p, m.psv, 1);
      FailureEnds(p, m.psv, 1);
      FailureKeepsPid(m.psv);
      if FailureState(m.psv).ok { TerminateReturns(p, FailureState(m.psv).psv, 5); }
    }
  }

  /** A stop of a RUNNING machine with these answers sticks. */
  lemma StopOfRunningSticks(x: Execution, n: nat, i: nat, v: nat)
    requires InRange(x, i, v) && Fresh(x.states[0]) && n < i && x.cs[n] == Stop(v)
    requires At(x, n, v).psv.state == Running && StopGoes(At(x, n, v).psv)
    ensures var (before, after) := (At(x, n + 1, v).psv.env.log, At(x, i, v).psv.env.log);
      before <= after && RebootsFollowStarts(after, |before|)
  {
    StopReturnsExactly(At(x, n, v).psv, false);
    StopSticks(x, n, i, v);
  }

  // ---- ends of children -------------------------------------------------------------

  // The answers with which psv_onexit returns 0.
  ghost predicate ExitGoes(p: Psv, code: nat, rmo: RebootManager) {
    match p.state
    case Stopping => Fine(p, 0, 3)
    case Running => code >= 3 || (Fine(p, 0, 3) && (code == 0 ==> rmo != Refusing))
    case PrestopBeforeRestart => code != 0 || (Fine(p, 0, 2) && rmo != Refusing)
    case _ => true
  }

  // The answers with which psv_onexit finds the reboot manager asked and willing.
  ghost predicate ExitQueues(p: Psv, code: nat, rmo: RebootManager) {
    code == 0 && rmo == Accepting &&
    ((p.state == Running && Fine(p, 0, 3)) || (p.state == PrestopBeforeRestart && Fine(p, 0, 2)))
  }

  lemma RequestReturns(p: Psv, path: seq<VmState>, rmo: RebootManager)
    requires IsPath(p.state, path)
    ensures var d := RequestReboot(p, path, rmo);
      d.rc == (if Fine(p, 0, |path|) && rmo != Refusing then 0 else -1) && d.psv.pid == p.pid &&
      (d.queued <==> Fine(p, 0, |path|) && rmo == Accepting)
  {
    hide FailureState;
    WalkEnds(p, p, 0, path);
    WalkKeepsPid(p, path);
    FailureKeepsPid(Walk(p, path).psv);
  }

  lemma GoDownReturns(p: Psv)
    ensures GoDown(p).rc == (if Fine(p, 0, 3) then 0 else -1) && GoDown(p).psv.pid == p.pid && !GoDown(p).queued
  {
    GoDownEnds(p);
    WalkKeepsPid(p, DOWN);
  }

  /** psv_onexit: return code, request to the reboot manager and process id for every state,
      exit code, pattern of answers and manager. */
  lemma ExitReturnsExactly(p: Psv, code: nat, rmo: RebootManager)
    ensures var d := OnExit(p, code, rmo);
      d.rc == (if ExitGoes(p, code, rmo) then 0 else -1) && (d.queued <==> ExitQueues(p, code, rmo)) &&
      d.psv.pid == if code >= 3 && ExitGoes(p, code, rmo) then 0 else p.pid
  {
    hide FailureState, GoDown, RequestReboot, Fine, IsPath;
    GoDownReturns(p);
    RestartIsPath();
    assert TORESTART[1..] == [Restarting, RestartStopped];
    if p.state == Running { RequestReturns(p, TORESTART, rmo); }
    if p.state == PrestopBeforeRestart { RequestReturns(p, TORESTART[1..], rmo); }
  }

  // The machine with what it was told.
  ghost function Told(p: Psv, a: Action): Psv { p.(env := Note(p.env, a)) }

  lemma ToldAnswers(p: Psv, a: Action)
    ensures Behind(p, Told(p, a), 1)
  {
  }

  // The last state of one process event.
  ghost function ExitEventEnd(p: Psv, status: WaitStatus): VmState {
    var seen := Told(p, Delivered(status));
    if status.Exited? then ExitEnd(seen, status.code, Accepting) else FailEnd(seen, 0, p.state)
  }

  ghost predicate ExitEventQueues(p: Psv, status: WaitStatus) {
    status.Exited? && ExitQueues(Told(p, Delivered(status)), status.code, Accepting)
  }

  /** One process event for every exit status and pattern of answers: the state it leaves, the
      request it makes and the process id. */
  lemma ExitEventEnds(vm: Vm, status: WaitStatus)
    ensures var h := ExitEvent(vm, status);
      h.vm.psv.state == ExitEventEnd(vm.psv, status) && (h.queued <==> ExitEventQueues(vm.psv, status)) &&
      h.vm == vm.(psv := h.vm.psv)
    ensures var seen := Told(vm.psv, Delivered(status));
      ExitEvent(vm, status).vm.psv.pid ==
        if status.Exited? && status.code >= 3 && ExitGoes(seen, status.code, Accepting) then 0 else vm.psv.pid
  {
    hide OnExit, FailureState, ExitEnd, ExitGoes, ExitQueues, FailEnd;
    var seen := Told(vm.psv, Delivered(status));
    if status.Exited? {
      ExitEnds(seen, status.code, Accepting);
      ExitReturnsExactly(seen, status.code, Accepting);
    } else {
      FailureEnds(seen, seen, 0);
      FailureKeepsPid(seen);
    }
  }

  /** When hooks succeed: exit code 0 of a RUNNING machine or during a reboot asks for a
      restart, codes 1 and 2 of a RUNNING machine and every code below 3 during a stop shut it
      down, codes 1 and 2 during a reboot are ignored, and every other end is a failure. */
  lemma ExitEventArrives(vm: Vm, status: WaitStatus)
    requires HooksOblige(vm.psv.env.oracle) && Up(vm.psv.state)
    ensures var (h, from) := (ExitEvent(vm, status), vm.psv.state);
      (h.vm.psv.state == match status
        case Exited(code) =>
          if code >= 3 then Failed
          else if from == Stopping then Stopped
          else if code == 0 then RestartStopped
          else if from == Running then Stopped
          else PrestopBeforeRestart
        case _ => Failed) &&
      (h.queued <==> status == Exited(0) && from != Stopping)
  {
    hide OnExit, FailureState;
    var seen := Noted(vm.psv, Delivered(status));
    if status.Exited? { OnExitArrives(seen, status.code); } else { FailureArrives(seen); }
  }

  // ---- the look at the child --------------------------------------------------------

  // How many hooks a walk of n steps asks for whose first hook is question i.
  ghost function Asked(p: Psv, i: nat, n: nat): nat
    decreases n
  {
    if n == 0 then 0 else if !Hook(p, i) then 1 else 1 + Asked(p, i + 1, n - 1)
  }

  lemma {:induction false} WalkAsks(p: Psv, q: Psv, i: nat, path: seq<VmState>)
    requires Behind(p, q, i) && IsPath(q.state, path)
    ensures Behind(p, Walk(q, path).psv, i + Asked(p, i, |path|))
    decreases path
  {
    if path != [] {
      assert Ask(q.env) == Later(p, i);
      if Hook(p, i) { WalkAsks(p, Enter(q, path[0]).psv, i + 1, path[1..]); }
    }
  }

  // The code psv_onexit is given for a child that could be reaped.
  ghost function ReapedCode(status: WaitStatus): nat { if status.Exited? then status.code else 0 }

  // The last state when psv_onexit may fail on the way and a failure walk follows.
  ghost function ReapedEnd(p: Psv, code: nat): VmState {
    if ExitGoes(p, code, Accepting) then ExitEnd(p, code, Accepting)
    else FailEnd(p, Asked(p, 0, 3), ExitEnd(p, code, Accepting))
  }

  // The last state of the look at the child of a RUNNING machine.
  ghost function LookEnd(p: Psv): VmState {
    var probe := Later(p, 0).probe;
    var seen := Told(p, Probed(probe));
    match probe
    case Vanished => FailEnd(seen, 0, Running)
    case Reaped(status) => if status.JobStopped? then Running else ReapedEnd(seen, ReapedCode(status))
    case Attached(_) => Running
  }

  ghost predicate LookQueues(p: Psv) {
    var probe := Later(p, 0).probe;
    probe.Reaped? && !probe.status.JobStopped? && ReapedCode(probe.status) == 0 && Fine(p, 1, 4)
  }

  // The return code of the look at the child.
  ghost function LookCode(probe: Probe): int {
    match probe
    case Vanished => 0
    case Reaped(status) => if status.JobStopped? then 0 else 165
    case Attached(rc) => if rc < 0 then 167 else 0
  }

  lemma FailedExitAsks(p: Psv, code: nat)
    requires p.state == Running && !ExitGoes(p, code, Accepting)
    ensures Behind(p, OnExit(p, code, Accepting).psv, Asked(p, 0, 3))
  {
    hide Fine, Asked, FailureState;
    FailureIsPath(Running);
    RestartIsPath();
    if code == 0 {
      WalkEnds(p, p, 0, TORESTART);
      WalkAsks(p, p, 0, TORESTART);
    } else {
      WalkEnds(p, p, 0, DOWN);
      WalkAsks(p, p, 0, DOWN);
    }
  }

  lemma ReapedEnds(p: Psv, code: nat)
    requires p.state == Running
    ensures var d := OnExit(p, code, Accepting);
      (if d.rc != 0 then FailureState(d.psv).psv else d.psv).state == ReapedEnd(p, code)
    ensures OnExit(p, code, Accepting).queued <==> code == 0 && Fine(p, 0, 3)
  {
    hide FailureState, OnExit, ExitEnd, ExitGoes, FailEnd;
    ExitReturnsExactly(p, code, Accepting);
    ExitEnds(p, code, Accepting);
    if !ExitGoes(p, code, Accepting) {
      FailedExitAsks(p, code);
      FailureEnds(p, OnExit(p, code, Accepting).psv, Asked(p, 0, 3));
    }
  }

  lemma VanishedEnds(p: Psv)
    requires p.state == Running
    ensures OnExit(p, 4, Accepting).psv.state == FailEnd(p, 0, Running) && !OnExit(p, 4, Accepting).queued
  {
    hide FailureState, OnExit, FailEnd;
    ExitReturnsExactly(p, 4, Accepting);
    ExitEnds(p, 4, Accepting);
  }

  /** The look at a child for everything the world may tell of it: return code, last state and
      request. */
  lemma LookEnds(vm: Vm)
    requires vm.psv.state == Running
    ensures var h := LookAtChild(vm);
      h.rc == LookCode(Later(vm.psv, 0).probe) && h.vm.psv.state == LookEnd(vm.psv) &&
      (h.queued <==> LookQueues(vm.psv))
  {
    hide FailureState, OnExit, FailEnd, ReapedEnd, Fine;
    var probe := Later(vm.psv, 0).probe;
    assert Ask(vm.psv.env) == Later(vm.psv, 0);
    var seen := Told(vm.psv, Probed(probe));
    ToldAnswers(vm.psv, Probed(probe));
    match probe
    case Vanished => VanishedEnds(seen);
    case Reaped(status) =>
      ReapedEnds(seen, ReapedCode(status));
      ShiftFine(vm.psv, seen, 1, 3);
    case Attached(rc) =>
  }

  // ---- psv_startvm --------------------------------------------------------------------

  // Which question the launch is, when it is reached.
  ghost function LaunchQuestion(p: Psv): nat { if !Hook(p, 0) then 9 else if !Hook(p, 1) then 6 else 2 }

  // A child is launched, with both start hooks or after a fallback to FAILED.
  ghost predicate ChildLaunched(p: Psv) { GoesOnToLaunch(p) && Later(p, LaunchQuestion(p)).launched }

  lemma BringUpAsks(p: Psv)
    requires Startable(p.state)
    ensures BringUp(p).ok <==> GoesOnToLaunch(p)
    ensures BringUp(p).ok ==> Behind(p, BringUp(p).psv, LaunchQuestion(p))
    ensures BringUp(p).psv.pid == p.pid
  {
    hide FailEnd, FailureState, FirstHook, SecondHook, Fine;
    LaunchReachedExactly(p);
    HooksKeepPid(p);
    var restarting := p.state == RestartStopped;
    if !Hook(p, 0) {
      FirstHookEnds(p);
      if FirstHook(p).ok { SecondHookEnds(p, FirstHook(p).psv, 5, true); }
    } else {
      FirstHookSucceeds(p);
      if Hook(p, 1) {
        SecondHookSucceeds(p, FirstHook(p).psv, restarting);
      } else {
        SecondHookEnds(p, FirstHook(p).psv, 1, restarting);
      }
    }
  }

  lemma HooksKeepPid(p: Psv)
    requires Startable(p.state)
    ensures BringUp(p).psv.pid == p.pid
  {
    hide Walk;
    var restarting := p.state == RestartStopped;
    var m := Enter(p, if restarting then PrestartAfterRestart else StartNetwork).psv;
    WalkKeepsPid(m, FAILURE);
    WalkKeepsPid(m, [StopNetwork, Stopped, Failed]);
    var q := FirstHook(p).psv;
    WalkKeepsPid(Enter(q, if restarting then StartAfterRestart else StartStorage).psv, FAILURE);
  }

  lemma LaunchReturns(p: Psv, restarting: bool)
    ensures var d := LaunchAndSettle(p, restarting);
      (if !Ask(p.env).launched then d.rc == -1 else d.rc == 0 || d.rc == 2) &&
      d.psv.pid == if Ask(p.env).launched then Ask(p.env).pid else p.pid
  {
    var l := Launch(p).psv;
    WalkKeepsPid(l, FAILURE);
    var path := if restarting then [Restarted, Running] else [Running];
    WalkKeepsPid(l, path);
    WalkKeepsPid(Walk(l, path).psv, FAILURE);
  }

  /** psv_startvm: return code and process id for every pattern of answers. 0 if and only if all
      goes well, 2 when a child was launched and a state behind the launch was not entered, and
      -1 when no child was launched; the process id is that of the child launched. */
  lemma StartReturnsExactly(p: Psv)
    requires Startable(p.state)
    ensures StartVm(p).rc == if GoodStart(p) then 0 else if ChildLaunched(p) then 2 else -1
    ensures StartVm(p).psv.pid == if ChildLaunched(p) then Later(p, LaunchQuestion(p)).pid else p.pid
  {
    hide LaunchAndSettle, BringUp, Fine;
    StartSucceedsExactly(p);
    BringUpAsks(p);
    if BringUp(p).ok {
      assert Ask(BringUp(p).psv.env) == Later(p, LaunchQuestion(p));
      LaunchReturns(BringUp(p).psv, p.state == RestartStopped);
    }
  }

  // ---- start requests -------------------------------------------------------------------

  // The machine when psv_startvm begins: budget, record and configuration are behind it.
  ghost function Prepared(p: Psv): Psv {
    p.(env := NoteAll(p.env, [Counted, Stamped, Generated(Later(p, 2).generate)]))
  }

  // The machine when its child is looked at after a good start.
  ghost function Started(p: Psv): Psv {
    var (g, pid) := (Prepared(p), Later(p, 5).pid);
    Psv(Running, pid, NoteAll(g.env, StartSequence(g.state, pid)))
  }

  /** The answer to question i of psv_startvm is the one to question i + 3 of the request. */
  lemma PreparedAnswers(p: Psv)
    ensures Behind(p, Prepared(p), 3)
    ensures forall i: nat :: Later(Prepared(p), i) == Later(p, 3 + i)
  {
    PreparedParts(p);
    NoteTwo(Note(p.env, Counted), Stamped, Generated(Later(p, 2).generate));
    ShiftAnswers(p, Prepared(p), 3);
  }

  lemma PreparedParts(p: Psv)
    ensures var rc := Later(p, 2).generate;
      Prepared(p).env == NoteAll(Note(p.env, Counted), [Stamped, Generated(rc)]) ==
        Note(Note(Note(p.env, Counted), Stamped), Generated(rc))
  {
    var rc := Later(p, 2).generate;
    assert [Counted, Stamped, Generated(rc)][1..] == [Stamped, Generated(rc)];
    NoteTwo(Note(p.env, Counted), Stamped, Generated(rc));
  }

  // States in which psv_startvm does something.
  ghost predicate AtStart(s: VmState) { s == Init || s == Stopped || s == RestartStopped }

  // The return code of a start request, by its numbers.
  ghost function StartCode(vm: Vm): int {
    var p := vm.psv;
    if CountFail(vm) || p.state == Failed then 169
    else if Later(p, 2).generate != 0 then 163
    else if !AtStart(p.state) then 168
    else if GoodStart(Prepared(p)) then LookCode(Later(Started(p), 0).probe)
    else if ChildLaunched(Prepared(p)) then 166
    else 168
  }

  // The last state of a start request.
  ghost function StartRequestEnd(vm: Vm): VmState {
    var p := vm.psv;
    if CountFail(vm) then FailEnd(p, 1, p.state)
    else if p.state == Failed then Failed
    else if Later(p, 2).generate != 0 then FailEnd(p, 3, p.state)
    else if !AtStart(p.state) then p.state
    else if GoodStart(Prepared(p)) then LookEnd(Started(p))
    else StartEnd(Prepared(p))
  }

  ghost predicate StartRequestQueues(vm: Vm) {
    var p := vm.psv;
    !CountFail(vm) && AtStart(p.state) && Later(p, 2).generate == 0 && GoodStart(Prepared(p)) &&
    LookQueues(Started(p))
  }

  lemma StampedAnswers(vm: Vm)
    ensures var st := Stamping(Counting(vm)).psv;
      Behind(vm.psv, st, 2) && st.state == vm.psv.state && st.pid == vm.psv.pid &&
      Ask(st.env) == Later(vm.psv, 2) && Noted(st, Generated(Later(vm.psv, 2).generate)) == Prepared(vm.psv)
  {
    PreparedParts(vm.psv);
  }

  lemma GoodStartEnds(g: Psv)
    requires AtStart(g.state) && GoodStart(g)
    ensures var pid := Later(g, 2).pid;
      StartVm(g).rc == 0 && StartVm(g).psv == Psv(Running, pid, NoteAll(g.env, StartSequence(g.state, pid)))
  {
    StartSucceedsExactly(g);
  }

  // What happens when the configuration was generated.
  lemma AttemptEnds(vm: Vm)
    requires Later(vm.psv, 2).generate == 0
    ensures var (p, h) := (vm.psv, Attempt(Stamping(Counting(vm))));
      if !AtStart(p.state) then h.rc == 168 && h.vm.psv.state == p.state && !h.queued
      else if GoodStart(Prepared(p)) then
        h.rc == LookCode(Later(Started(p), 0).probe) && h.vm.psv.state == LookEnd(Started(p)) &&
        (h.queued <==> LookQueues(Started(p)))
      else
        h.rc == (if ChildLaunched(Prepared(p)) then 166 else 168) && h.vm.psv.state == StartEnd(Prepared(p)) &&
        !h.queued
  {
    hide StartVm, LookAtChild, GoodStart, StartEnd, LookEnd, LookQueues, LookCode, ChildLaunched, NoteAll, FailureState;
    var (p, st) := (vm.psv, Stamping(Counting(vm)));
    StampedAnswers(vm);
    var g := Prepared(p);
    if !AtStart(g.state) {
      NotStartable(g);
    } else {
      StartReturnsExactly(g);
      StartEnds(g);
      if GoodStart(g) {
        GoodStartEnds(g);
        PreparedAnswers(p);
        LookEnds(st.(psv := Started(p)));
      }
    }
  }

  /** A start request for every pattern of answers: its return code by its number, the state it
      leaves and the request it makes. */
  lemma StartRequestEnds(vm: Vm)
    ensures var h := StartRequest(vm);
      h.rc == StartCode(vm) && h.vm.psv.state == StartRequestEnd(vm) && (h.queued <==> StartRequestQueues(vm))
  {
    hide Attempt, CountFail, GoodStart, StartEnd, LookEnd, LookQueues, LookCode, ChildLaunched, FailureState, FailEnd;
    var counted := Counting(vm);
    FailureEnds(vm.psv, counted.psv, 1);
    if !CountFail(vm) && vm.psv.state != Failed {
      if Later(vm.psv, 2).generate == 0 { AttemptEnds(vm); } else { GenerationFails(vm); }
    }
  }

  lemma GenerationFails(vm: Vm)
    requires Later(vm.psv, 2).generate != 0
    ensures var h := Attempt(Stamping(Counting(vm)));
      h.rc == 163 && h.vm.psv.state == FailEnd(vm.psv, 3, vm.psv.state) && !h.queued
  {
    hide FailureState, FailEnd;
    StampedAnswers(vm);
    PreparedAnswers(vm.psv);
    FailureEnds(vm.psv, Prepared(vm.psv), 3);
  }

  /** A start request returns 0 if and only if it is within the budget and not FAILED, the
      configuration is generated, everything on the way to RUNNING succeeds, and the child has
      vanished, is merely stopped, or lives and could be registered. */
  lemma StartReturnsZeroExactly(vm: Vm)
    ensures StartRequest(vm).rc == 0 <==>
      !CountFail(vm) && Later(vm.psv, 2).generate == 0 && AtStart(vm.psv.state) && GoodStart(Prepared(vm.psv)) &&
      match Later(Started(vm.psv), 0).probe
      case Vanished => true
      case Reaped(status) => status.JobStopped?
      case Attached(rc) => rc >= 0
  {
    hide StartRequest, CountFail, GoodStart, ChildLaunched, Prepared, Started;
    StartRequestEnds(vm);
  }

  // ---- steps ----------------------------------------------------------------------------

  // The last state of machine v after a step.
  ghost function StepEnd(s: Sys, c: Command, v: nat): VmState
    requires WellFormed(s) && v < |s.vms|
  {
    var (vm, p) := (s.vms[v], s.vms[v].psv);
    if Starts(s, c, v) then StartRequestEnd(vm)
    else if c == Stop(v) && p.state == Running then StopEnd(p, false)
    else if c == Reboot(v) && p.state == Running then StopEnd(p, true)
    else if c == ResetFail(v) && p.state == Failed then Init
    else if c.Exit? && c.v == v && Unseen(p.env.log) > 0 then ExitEventEnd(p, c.status)
    else p.state
  }

  ghost predicate StepQueues(s: Sys, c: Command, v: nat)
    requires WellFormed(s) && v < |s.vms|
  {
    (Starts(s, c, v) && StartRequestQueues(s.vms[v])) ||
    (c.Exit? && c.v == v && Unseen(s.vms[v].psv.env.log) > 0 && ExitEventQueues(s.vms[v].psv, c.status))
  }

  /** Every step of the director, for every machine and every pattern of answers: the state in
      which it leaves the machine. */
  lemma StepEnds(s: Sys, c: Command, v: nat)
    requires WellFormed(s) && v < |s.vms|
    ensures Step(s, c).vms[v].psv.state == StepEnd(s, c, v)
  {
    hide StartRequest, StartRequestEnd, StopOrReboot, StopEnd, ExitEvent, ExitEventEnd, Unseen;
    var (vm, p) := (s.vms[v], s.vms[v].psv);
    match c
    case Start(w) => if w == v { StartRequestEnds(vm); }
    case Stop(w) => if w == v { StopOutcome(p, false); }
    case Reboot(w) => if w == v { StopOutcome(p, true); }
    case ResetFail(w) =>
    case Exit(w, status) => if w == v { ExitEventEnds(vm, status); }
    case Pop =>
    case StartPopped => if s.pending == Some(v) { StartRequestEnds(vm); }
  }

  lemma StopOutcome(p: Psv, reboot: bool)
    ensures StopOrReboot(p, reboot).psv.state == if p.state == Running then StopEnd(p, reboot) else p.state
  {
    if p.state == Running { StopEnds(p, reboot); }
  }

  /** A step queues machine v for a restart if and only if these answers are given, and it never
      takes anything else than the head off the queue. */
  lemma StepQueuesExactly(s: Sys, c: Command)
    requires WellFormed(s)
    ensures Step(s, c).queue ==
      if c.Pop? then (if s.pending.None? && s.queue != [] then s.queue[1..] else s.queue)
      else if exists v: nat :: v < |s.vms| && StepQueues(s, c, v)
      then s.queue + [if c.StartPopped? then s.pending.value else c.v] else s.queue
  {
    hide StartRequest, StartRequestQueues, StopOrReboot, ExitEvent, ExitEventQueues, Unseen;
    match c
    case Start(w) => if w < |s.vms| { StartRequestEnds(s.vms[w]); assert Starts(s, c, w); Queued(s, c, w); }
    case Exit(w, status) => if w < |s.vms| { ExitEventEnds(s.vms[w], status); Queued(s, c, w); }
    case StartPopped => if s.pending.Some? { StartRequestEnds(s.vms[s.pending.value]); Queued(s, c, s.pending.value); }
    case _ =>
  }

  // Only one machine can be queued by a step.
  lemma Queued(s: Sys, c: Command, w: nat)
    requires WellFormed(s) && w < |s.vms|
    requires c == Start(w) || (c.Exit? && c.v == w) || (c == StartPopped && s.pending == Some(w))
    ensures (exists v: nat :: v < |s.vms| && StepQueues(s, c, v)) <==> StepQueues(s, c, w)
  {
  }
}
