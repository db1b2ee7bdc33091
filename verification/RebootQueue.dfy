/** The queue between the exit-event thread and the restart thread: what goes in comes
    out in order, and when each waiting machine is in RESTART_STOPPED and waits once.
  */
module RebootQueue {
  import opened Wrappers
  import opened Lifecycle
  import opened ProcessSpec
  import opened DirectorSpec
  import opened Executions
  import opened HookHistory
  import opened Traces
  import opened StartExactness
  import opened RestartLimit
  import opened Accounting

  // ---- conservation -----------------------------------------------------------

  // Reboot requests accepted for machine v so far, from its journal.
  ghost function Acceptances(log: seq<Event>): nat {
    if log == [] then 0
    else Acceptances(log[..|log| - 1]) + (if log[|log| - 1].action == RebootAccepted then 1 else 0)
  }

  ghost function Occurrences(q: seq<nat>, v: nat): nat {
    if q == [] then 0
    else Occurrences(q[..|q| - 1], v) + (if q[|q| - 1] == v then 1 else 0)
  }

  ghost function Acceptance(e: Event): int { if e.action == RebootAccepted then 1 else 0 }

  lemma AcceptancesAreAdditive()
    ensures Additive(log => Acceptances(log), e => Acceptance(e))
  {
    assert forall log: seq<Event>, e: Event {:trigger log + [e]} :: (log + [e])[..|log|] == log;
  }

  ghost function Accepts(acts: seq<Action>): nat {
    if acts == [] then 0
    else Accepts(acts[..|acts| - 1]) + (if acts[|acts| - 1] == RebootAccepted then 1 else 0)
  }

  lemma {:induction false} AcceptancesOf(tail: seq<Event>, acts: seq<Action>)
    requires Are(tail, acts)
    ensures Acceptances(tail) == Accepts(acts)
    decreases |tail|
  {
    if tail != [] { AcceptancesOf(tail[..|tail| - 1], acts[..|acts| - 1]); }
  }

  lemma {:induction false} NothingAccepted(acts: seq<Action>)
    requires RebootAccepted !in acts
    ensures Accepts(acts) == 0
    decreases |acts|
  {
    if acts != [] { NothingAccepted(acts[..|acts| - 1]); }
  }

  lemma AcceptsAtEnd(acts: seq<Action>, queued: bool)
    requires RebootAccepted !in acts
    ensures Accepts(acts + IfQueued(queued)) == if queued then 1 else 0
  {
    NothingAccepted(acts);
    if queued {
      assert (acts + IfQueued(true))[..|acts|] == acts;
    } else {
      assert acts + IfQueued(false) == acts;
    }
  }

  lemma AttemptAccepts(vm: Vm) returns (acts: seq<Action>)
    ensures AttemptActs(vm) == acts + IfQueued(Attempt(vm).queued) && RebootAccepted !in acts
  {
    var rc := Ask(vm.psv.env).generate;
    var g := Noted(vm.psv, Generated(rc));
    acts := [Generated(rc)];
    if rc == 0 {
      acts := acts + StartVmActs(g);
      if StartVm(g).rc == 0 { acts := acts + [Probed(Ask(StartVm(g).psv.env).probe)]; }
    }
  }

  lemma StartAccepts(vm: Vm)
    ensures Accepts(StartActs(vm)) == if StartRequest(vm).queued then 1 else 0
  {
    if CountFail(vm) || Counting(vm).psv.state == Failed {
      NothingAccepted(StartActs(vm));
    } else {
      var st := Stamping(Counting(vm));
      var acts := AttemptAccepts(st);
      assert StartActs(vm) == ([Counted, Stamped] + acts) + IfQueued(Attempt(st).queued);
      AcceptsAtEnd([Counted, Stamped] + acts, Attempt(st).queued);
    }
  }

  function Appended(accepted: seq<nat>, w: nat, queued: bool): seq<nat> {
    if queued then accepted + [w] else accepted
  }

  lemma AppendedOccurrences(accepted: seq<nat>, w: nat, queued: bool, v: nat)
    ensures Occurrences(Appended(accepted, w, queued), v) ==
      Occurrences(accepted, v) + (if queued && w == v then 1 else 0)
  {
    assert (accepted + [w])[..|accepted|] == accepted;
  }

  // The reboot requests one step journals for a machine are the ones it queues.
  lemma StepAccepts(s: Sys, c: Command, v: nat)
    requires WellFormed(s) && v < |s.vms|
    ensures Occurrences(Step(s, c).accepted, v) == Occurrences(s.accepted, v) + Accepts(StepActs(s, c, v))
  {
    match c
    case Start(w) =>
      if w < |s.vms| {
        StartAccepts(s.vms[w]);
        AppendedOccurrences(s.accepted, w, StartRequest(s.vms[w]).queued, v);
      }
    case StartPopped =>
      if s.pending.Some? {
        var w := s.pending.value;
        StartAccepts(s.vms[w]);
        AppendedOccurrences(s.accepted, w, StartRequest(s.vms[w]).queued, v);
      }
    case Exit(w, status) =>
      if w < |s.vms| && Unseen(s.vms[w].psv.env.log) > 0 {
        var queued := ExitEvent(s.vms[w], status).queued;
        AppendedOccurrences(s.accepted, w, queued, v);
        AcceptsAtEnd([Delivered(status)], queued);
      }
    case _ => NothingAccepted(StepActs(s, c, v));
  }

  ghost predicate InOrderOfAcceptance(s: Sys) {
    s.accepted == s.popped + s.queue &&
    (s.pending.Some? ==> s.popped != [] && s.pending.value == s.popped[|s.popped| - 1])
  }

  lemma KeepKeepsOrder(s: Sys, v: nat, h: Handled)
    requires v < |s.vms| && InOrderOfAcceptance(s)
    ensures InOrderOfAcceptance(Keep(s, v, h))
  {
    assert (s.popped + s.queue) + [v] == s.popped + (s.queue + [v]);
  }

  lemma StepKeepsOrder(s: Sys, c: Command)
    requires WellFormed(s) && InOrderOfAcceptance(s)
    ensures InOrderOfAcceptance(Step(s, c))
  {
    match c
    case Start(v) => if v < |s.vms| { KeepKeepsOrder(s, v, StartRequest(s.vms[v])); }
    case Stop(v) =>
      if v < |s.vms| { KeepKeepsOrder(s, v, Changed(s.vms[v], StopOrReboot(s.vms[v].psv, false).psv)); }
    case Reboot(v) =>
      if v < |s.vms| { KeepKeepsOrder(s, v, Changed(s.vms[v], StopOrReboot(s.vms[v].psv, true).psv)); }
    case ResetFail(v) =>
      if v < |s.vms| { KeepKeepsOrder(s, v, Changed(s.vms[v], ResetFailure(s.vms[v].psv).psv)); }
    case Exit(v, status) => if v < |s.vms| { KeepKeepsOrder(s, v, ExitEvent(s.vms[v], status)); }
    case Pop =>
      if s.queue != [] { assert s.popped + s.queue == (s.popped + [s.queue[0]]) + s.queue[1..]; }
    case StartPopped =>
      if s.pending.Some? {
        KeepKeepsOrder(s.(pending := None), s.pending.value, StartRequest(s.vms[s.pending.value]));
      }
  }

  lemma StepCounts(s: Sys, c: Command, v: nat)
    requires WellFormed(s) && v < |s.vms|
    ensures Acceptances(Step(s, c).vms[v].psv.env.log) ==
      Acceptances(s.vms[v].psv.env.log) + Accepts(StepActs(s, c, v))
  {
    hide Step, StepActs, Acceptances, Accepts, Core;
    var (p, q) := (s.vms[v].psv, Step(s, c).vms[v].psv);
    StepTrace(s, c, v);
    AcceptancesAreAdditive();
    CountOfCore(c => Acceptances(c), e => Acceptance(e), p.env.log);
    CountOfCore(c => Acceptances(c), e => Acceptance(e), q.env.log);
    CountOfBoth(c => Acceptances(c), e => Acceptance(e), Core(p.env.log), Added(p, q));
    AcceptancesOf(Added(p, q), StepActs(s, c, v));
  }

  /** Conservation in every execution, with any outcome of hooks: the requests the
      reboot manager took are the ones the restart thread popped followed by the ones
      still queued, in the order they came, and a machine occurs among them as often as
      its journal says that its request was taken. */
  lemma {:induction false} RequestsAreConserved(x: Execution, i: nat, v: nat)
    requires InRange(x, i, v) && Fresh(x.states[0])
    ensures InOrderOfAcceptance(x.states[i])
    ensures Occurrences(x.states[i].accepted, v) == Acceptances(At(x, i, v).psv.env.log)
    decreases i
  {
    assert Acceptances([]) == 0 && Occurrences([], v) == 0;
    if i > 0 {
      hide Step, StepActs, InOrderOfAcceptance, Acceptances, Occurrences, Accepts;
      var (before, c) := (x.states[i - 1], x.cs[i - 1]);
      RequestsAreConserved(x, i - 1, v);
      assert Follows(x, i - 1);
      StepKeepsOrder(before, c);
      StepAccepts(before, c, v);
      StepCounts(before, c, v);
    }
  }

  // ---- who waits --------------------------------------------------------------

  // Machines the restart thread has yet to start.
  function Waiting(s: Sys): seq<nat> {
    (if s.pending.Some? then [s.pending.value] else []) + s.queue
  }

  ghost predicate Tidy(s: Sys) {
    WellFormed(s) &&
    (forall i, j :: 0 <= i < j < |Waiting(s)| ==> Waiting(s)[i] != Waiting(s)[j]) &&
    forall w :: w in Waiting(s) ==> s.vms[w].psv.state == RestartStopped
  }

  // Steps that disturb a waiting machine: a client start, and an exit event of an
  // older child that counts as a failure.
  predicate Disturbs(s: Sys, c: Command)
    requires WellFormed(s)
  {
    match c
    case Start(v) => v in Waiting(s)
    case Exit(v, status) =>
      v in Waiting(s) && Unseen(s.vms[v].psv.env.log) > 0 && (status.Exited? ==> status.code >= 3)
    case _ => false
  }

  lemma RebootQueues(p: Psv, path: seq<VmState>)
    requires path != [] && path[|path| - 1] == RestartStopped
    ensures RequestReboot(p, path, Accepting).queued ==>
      RequestReboot(p, path, Accepting).psv.state == RestartStopped
  {
    if Walk(p, path).ok { WalkArrives(p, path); }
  }

  // A request is only queued for a machine that was up and is in RESTART_STOPPED now.
  lemma OnExitQueues(p: Psv, code: nat)
    ensures var d := OnExit(p, code, Accepting);
      d.queued ==> d.rc == 0 && d.psv.state == RestartStopped && p.state != RestartStopped
  {
    RebootQueues(p, [Restarting, RestartStopped]);
    RebootQueues(p, [PrestopBeforeRestart, Restarting, RestartStopped]);
  }

  lemma LookQueues(vm: Vm)
    ensures LookAtChild(vm).queued ==> LookAtChild(vm).vm.psv.state == RestartStopped
  {
    var probe := Ask(vm.psv.env).probe;
    var seen := Noted(vm.psv, Probed(probe));
    OnExitQueues(seen, 4);
    if probe.Reaped? { OnExitQueues(seen, ExitCode(probe.status)); }
  }

  lemma AttemptQueues(vm: Vm)
    ensures Attempt(vm).queued ==> Attempt(vm).vm.psv.state == RestartStopped
  {
    var g := vm.(psv := Noted(vm.psv, Generated(Ask(vm.psv.env).generate)));
    LookQueues(g.(psv := StartVm(g.psv).psv));
  }

  lemma StartQueues(vm: Vm)
    ensures StartRequest(vm).queued ==> StartRequest(vm).vm.psv.state == RestartStopped
  {
    if !CountFail(vm) { AttemptQueues(Stamping(Counting(vm))); }
  }

  lemma ExitQueues(vm: Vm, status: WaitStatus)
    ensures var h := ExitEvent(vm, status);
      (h.queued ==> h.vm.psv.state == RestartStopped && vm.psv.state != RestartStopped) &&
      (vm.psv.state == RestartStopped && status.Exited? && status.code < 3 ==>
        h.vm.psv.state == RestartStopped)
  {
    if status.Exited? { OnExitQueues(Noted(vm.psv, Delivered(status)), status.code); }
  }

  // Machine v is not waiting when it is touched: handling it keeps the queue tidy.
  lemma KeepTidy(s: Sys, v: nat, h: Handled)
    requires Tidy(s) && v < |s.vms| && v !in Waiting(s)
    requires h.queued ==> h.vm.psv.state == RestartStopped
    ensures Tidy(Keep(s, v, h))
  {
    var t := Keep(s, v, h);
    assert Waiting(t) == if h.queued then Waiting(s) + [v] else Waiting(s);
  }

  // A waiting machine is touched, stays in RESTART_STOPPED and asks for nothing.
  lemma KeepWaiting(s: Sys, v: nat, h: Handled)
    requires Tidy(s) && v < |s.vms| && !h.queued
    requires v in Waiting(s) ==> h.vm.psv.state == RestartStopped
    ensures Tidy(Keep(s, v, h))
  {
    assert Waiting(Keep(s, v, h)) == Waiting(s);
  }

  lemma PopKeepsTidy(s: Sys)
    requires Tidy(s)
    ensures Tidy(Step(s, Pop))
  {
    if s.pending.None? && s.queue != [] {
      assert Waiting(Step(s, Pop)) == [s.queue[0]] + s.queue[1..] == s.queue == Waiting(s);
    }
  }

  lemma TakenIsTidy(s: Sys)
    requires Tidy(s) && s.pending.Some?
    ensures var t := s.(pending := None); Tidy(t) && s.pending.value !in Waiting(t)
  {
    var t := s.(pending := None);
    assert Waiting(s) == [s.pending.value] + s.queue && Waiting(t) == s.queue;
    forall i, j | 0 <= i < j < |s.queue| ensures s.queue[i] != s.queue[j] {
      assert Waiting(s)[i + 1] != Waiting(s)[j + 1];
    }
    forall i | 0 <= i < |s.queue| ensures s.queue[i] != s.pending.value {
      assert Waiting(s)[0] != Waiting(s)[i + 1];
    }
    forall w | w in Waiting(t) ensures s.vms[w].psv.state == RestartStopped {
      assert w in Waiting(s);
    }
  }

  /** With any outcome of hooks, a step that disturbs no waiting machine leaves every
      waiting machine waiting once and in RESTART_STOPPED. */
  lemma StepKeepsTidy(s: Sys, c: Command)
    requires Tidy(s) && !Disturbs(s, c)
    ensures Tidy(Step(s, c))
  {
    match c
    case Start(v) =>
      if v < |s.vms| {
        StartQueues(s.vms[v]);
        KeepTidy(s, v, StartRequest(s.vms[v]));
      }
    case Exit(v, status) =>
      if v < |s.vms| && Unseen(s.vms[v].psv.env.log) > 0 {
        ExitQueues(s.vms[v], status);
        if v in Waiting(s) {
          KeepWaiting(s, v, ExitEvent(s.vms[v], status));
        } else {
          KeepTidy(s, v, ExitEvent(s.vms[v], status));
        }
      }
    case Stop(v) =>
      if v < |s.vms| { KeepWaiting(s, v, Changed(s.vms[v], StopOrReboot(s.vms[v].psv, false).psv)); }
    case Reboot(v) =>
      if v < |s.vms| { KeepWaiting(s, v, Changed(s.vms[v], StopOrReboot(s.vms[v].psv, true).psv)); }
    case ResetFail(v) =>
      if v < |s.vms| { KeepWaiting(s, v, Changed(s.vms[v], ResetFailure(s.vms[v].psv).psv)); }
    case Pop => PopKeepsTidy(s);
    case StartPopped =>
      if s.pending.Some? {
        var w := s.pending.value;
        TakenIsTidy(s);
        StartQueues(s.vms[w]);
        KeepTidy(s.(pending := None), w, StartRequest(s.vms[w]));
      }
  }

  // ---- the condition is exact ----------------------------------------------------

  lemma LookQueuesExactly(vm: Vm)
    requires HooksOblige(vm.psv.env.oracle) && vm.psv.state == Running
    ensures LookAtChild(vm).queued <==> LookAtChild(vm).vm.psv.state == RestartStopped
  {
    var probe := Ask(vm.psv.env).probe;
    var seen := Noted(vm.psv, Probed(probe));
    OnExitArrives(seen, 4);
    if probe.Reaped? { OnExitArrives(seen, ExitCode(probe.status)); }
  }

  lemma AttemptQueuesExactly(vm: Vm)
    requires HooksOblige(vm.psv.env.oracle) && Startable(vm.psv.state)
    ensures Attempt(vm).queued <==> Attempt(vm).vm.psv.state == RestartStopped
  {
    var rc := Ask(vm.psv.env).generate;
    var g := vm.(psv := Noted(vm.psv, Generated(rc)));
    if rc != 0 {
      FailureArrives(g.psv);
    } else {
      StartArrives(g.psv);
      if StartVm(g.psv).rc == 0 { LookQueuesExactly(g.(psv := StartVm(g.psv).psv)); }
    }
  }

  lemma StartQueuesExactly(vm: Vm)
    requires HooksOblige(vm.psv.env.oracle) && vm.psv.state == RestartStopped
    ensures StartRequest(vm).queued <==> StartRequest(vm).vm.psv.state == RestartStopped
  {
    if CountFail(vm) {
      FailureArrives(Counting(vm).psv);
    } else {
      AttemptQueuesExactly(Stamping(Counting(vm)));
    }
  }

  // A waiting machine that is touched and leaves RESTART_STOPPED, or asks for a
  // second restart, spoils the queue.
  lemma KeepSpoils(s: Sys, v: nat, h: Handled)
    requires Tidy(s) && v in Waiting(s)
    requires h.queued <==> h.vm.psv.state == RestartStopped
    ensures !Tidy(Keep(s, v, h))
  {
    var t := Keep(s, v, h);
    if h.queued {
      assert Waiting(t) == Waiting(s) + [v];
      var i :| 0 <= i < |Waiting(s)| && Waiting(s)[i] == v;
      assert Waiting(t)[i] == Waiting(t)[|Waiting(s)|];
    } else {
      assert Waiting(t) == Waiting(s);
    }
  }

  lemma FailingExit(vm: Vm, status: WaitStatus)
    requires HooksOblige(vm.psv.env.oracle) && vm.psv.state == RestartStopped
    requires status.Exited? ==> status.code >= 3
    ensures !ExitEvent(vm, status).queued && ExitEvent(vm, status).vm.psv.state == Failed
  {
    FailureArrives(Noted(vm.psv, Delivered(status)));
  }

  /** When hooks succeed, a step leaves every waiting machine waiting once and in
      RESTART_STOPPED if and only if it is no client start of a waiting machine and
      no failed exit of an older child of one. */
  lemma TidyExactly(s: Sys, c: Command)
    requires Tidy(s) && forall v :: 0 <= v < |s.vms| ==> HooksOblige(s.vms[v].psv.env.oracle)
    ensures Tidy(Step(s, c)) <==> !Disturbs(s, c)
  {
    hide StartRequest, ExitEvent, Keep;
    if !Disturbs(s, c) {
      StepKeepsTidy(s, c);
    } else {
      var v := c.v;
      var vm := s.vms[v];
      assert vm.psv.state == RestartStopped;
      if c.Start? {
        StartQueuesExactly(vm);
        KeepSpoils(s, v, StartRequest(vm));
      } else {
        FailingExit(vm, c.status);
        KeepSpoils(s, v, ExitEvent(vm, c.status));
      }
    }
  }

  // ---- executions ---------------------------------------------------------------------

  ghost predicate DisturbedAt(x: Execution, k: nat)
    requires Possible(x) && k < |x.cs|
  {
    Disturbs(x.states[k], x.cs[k])
  }

  /** In whole executions with any outcome of hooks: while no step disturbs a waiting
      machine, every machine is queued at most once and every queued machine is in
      RESTART_STOPPED. */
  lemma {:induction false} QueueStaysTidy(x: Execution, i: nat)
    requires Possible(x) && i <= |x.cs| && Tidy(x.states[0])
    requires forall k {:trigger DisturbedAt(x, k)} :: 0 <= k < i ==> !DisturbedAt(x, k)
    ensures Tidy(x.states[i])
    decreases i
  {
    if i > 0 {
      hide Step, Tidy, Disturbs;
      QueueStaysTidy(x, i - 1);
      assert Follows(x, i - 1) && !DisturbedAt(x, i - 1);
      StepKeepsTidy(x.states[i - 1], x.cs[i - 1]);
    }
  }

  // A client starts a machine that is in RESTART_STOPPED.
  ghost predicate ImpatientAt(x: Execution, k: nat)
    requires Possible(x) && k < |x.cs|
  {
    var c := x.cs[k];
    c.Start? && c.v < |x.states[0].vms| && At(x, k, c.v).psv.state == RestartStopped
  }

  // Hooks succeed and none of the first n steps leaves a child behind.
  ghost predicate Balanced(x: Execution, n: nat)
    requires Possible(x) && n <= |x.cs|
  {
    (forall v :: 0 <= v < |x.states[0].vms| ==> HooksOblige(At(x, 0, v).psv.env.oracle)) &&
    forall k, v {:trigger UnbalancedAt(x, k, v)} :: 0 <= k < n && 0 <= v < |x.states[0].vms| ==> !UnbalancedAt(x, k, v)
  }

  // Where machines are accounted for, only an impatient client disturbs.
  lemma OnlyImpatience(x: Execution, k: nat)
    requires Possible(x) && k < |x.cs| && Fresh(x.states[0]) && Balanced(x, k)
    requires Tidy(x.states[k]) && DisturbedAt(x, k)
    ensures ImpatientAt(x, k)
  {
    var c := x.cs[k];
    assert c.v in Waiting(x.states[k]) && c.v < |x.states[0].vms|;
    if c.Exit? { StaysAccounted(x, k, c.v); }
  }

  /** In accounted executions no older child is left, so it is enough that clients are
      patient: then the queue stays tidy on every interleaving. */
  lemma {:induction false} PatienceIsEnough(x: Execution, i: nat)
    requires Possible(x) && i <= |x.cs| && Fresh(x.states[0]) && Balanced(x, i)
    requires forall k {:trigger ImpatientAt(x, k)} :: 0 <= k < i ==> !ImpatientAt(x, k)
    ensures Tidy(x.states[i])
    decreases i
  {
    if i > 0 {
      hide Step, Disturbs, Tidy;
      PatienceIsEnough(x, i - 1);
      assert Follows(x, i - 1) && !ImpatientAt(x, i - 1);
      if DisturbedAt(x, i - 1) { OnlyImpatience(x, i - 1); }
      StepKeepsTidy(x.states[i - 1], x.cs[i - 1]);
    }
  }

  // ---- an older child -------------------------------------------------------------------

  // Everything succeeds and every child goes on running, only the answer to question 10
  // is that no configuration can be generated.
  ghost predicate OneBadAnswer(oracle: nat -> Answer) {
    HooksOblige(oracle) &&
    forall n: nat :: oracle(n).launched && oracle(n).probe.Attached? && (oracle(n).generate != 0 <==> n == 10)
  }

  lemma {:induction false} LengthOfNoteAll(e: Env, acts: seq<Action>)
    ensures |NoteAll(e, acts).log| == |e.log| + |acts| && NoteAll(e, acts).oracle == e.oracle
    decreases acts
  {
    if acts != [] { LengthOfNoteAll(Note(e, acts[0]), acts[1..]); }
  }

  lemma AttemptRuns(vm: Vm)
    requires OneBadAnswer(vm.psv.env.oracle) && vm.psv.state == Init && |vm.psv.env.log| != 10
    ensures var h := Attempt(vm);
      h.vm.psv.state == Running && !h.queued && |h.vm.psv.env.log| == |vm.psv.env.log| + 6
    ensures Sum(AttemptActs(vm)) == 1
  {
    hide FailureState, OnExit, StartVm, StartVmActs, Sum, IsPath;
    var g := Noted(vm.psv, Generated(Ask(vm.psv.env).generate));
    StartSucceedsExactly(g);
    StartArrives(g);
    var p := StartVm(g).psv;
    LengthOfNoteAll(g.env, StartSequence(g.state, p.pid));
    SumOfRun(Ask(vm.psv.env).generate, Later(g, 2).pid, Ask(p.env).probe);
  }

  lemma SumOfRun(rc: int, pid: nat, probe: Probe)
    requires probe.Attached?
    ensures Sum([Generated(rc)] + ([Launched(true, pid)] + ([Probed(probe)] + IfQueued(false)))) == 1
  {
    hide Sum;
    SumOne(Generated(rc));
    SumOne(Launched(true, pid));
    SumOne(Probed(probe));
    assert [Probed(probe)] + IfQueued(false) == [Probed(probe)];
    SumAppend([Launched(true, pid)], [Probed(probe)]);
    SumAppend([Generated(rc)], [Launched(true, pid)] + [Probed(probe)]);
  }

  lemma StartRuns(vm: Vm)
    requires OneBadAnswer(vm.psv.env.oracle) && vm.psv.state == Init && |vm.psv.env.log| != 8
    requires |vm.startups| <= vm.config.maxrestart
    ensures var h := StartRequest(vm);
      h.vm.psv.state == Running && !h.queued && |h.vm.psv.env.log| == |vm.psv.env.log| + 8 &&
      |h.vm.startups| <= |vm.startups| + 1
    ensures Unseen(StartRequest(vm).vm.psv.env.log) == Unseen(vm.psv.env.log) + 1
  {
    hide Unseen, Sum, Attempt, AttemptActs;
    BudgetHolds(vm);
    StartRequestIsAttempt(vm);
    var st := Stamping(Counting(vm));
    AttemptRuns(st);
    AttemptKeepsQueue(st);
    StartTrace(vm);
    UnseenGrows(vm.psv, StartRequest(vm).vm.psv, StartActs(vm));
    SumAppend([Counted, Stamped], AttemptActs(st));
    SumAppend([Counted], [Stamped]);
    SumOne(Counted);
    SumOne(Stamped);
    assert [Counted] + [Stamped] == [Counted, Stamped];
  }

  // With few records no start is over the budget, whatever the clock says.
  lemma BudgetHolds(vm: Vm)
    requires |vm.startups| <= vm.config.maxrestart
    ensures !CountFail(vm) && |Counting(vm).startups| <= |vm.startups|
  {
    PruneIsSuffix(vm.startups, Counting(vm).psv.env.now - vm.config.maxrestarttime);
  }

  lemma StartFails(vm: Vm)
    requires OneBadAnswer(vm.psv.env.oracle) && vm.psv.state == Running && |vm.psv.env.log| == 8
    requires |vm.startups| <= vm.config.maxrestart && Unseen(vm.psv.env.log) == 1
    ensures var h := StartRequest(vm);
      h.vm.psv.state == Failed && !h.queued && |h.vm.psv.env.log| > 8 && |h.vm.startups| <= |vm.startups| + 1
    ensures Unseen(StartRequest(vm).vm.psv.env.log) == 1
  {
    StartStrandsChild(vm);
    hide Unseen, FailureState, Extended;
    BudgetHolds(vm);
    var st := Stamping(Counting(vm));
    AttemptKeepsQueue(st);
    WalkTrace(Noted(st.psv, Generated(Ask(st.psv.env).generate)), FAILURE);
  }

  // Machine 0 in this state with so many unseen children and at most so many records.
  ghost predicate Stands(s: Sys, state: VmState, children: int, records: nat, queue: seq<nat>) {
    WellFormed(s) && s.vms != [] && s.pending.None? && s.queue == queue &&
    var vm := s.vms[0];
    vm.psv.state == state && Unseen(vm.psv.env.log) == children && |vm.startups| <= records &&
    OneBadAnswer(vm.psv.env.oracle) && vm.config.maxrestart >= 2
  }

  lemma StepRuns(s: Sys, children: int, records: nat)
    requires Stands(s, Init, children, records, []) && records <= 2 && |s.vms[0].psv.env.log| != 8
    ensures Stands(Step(s, Start(0)), Running, children + 1, records + 1, [])
    ensures |Step(s, Start(0)).vms[0].psv.env.log| == |s.vms[0].psv.env.log| + 8
  {
    hide StartRequest, Unseen, Extended;
    StartRuns(s.vms[0]);
    StartKeepsConfig(s.vms[0]);
    KeepsOracle(s, Start(0));
  }

  lemma KeepsOracle(s: Sys, c: Command)
    requires WellFormed(s) && s.vms != []
    ensures Step(s, c).vms[0].psv.env.oracle == s.vms[0].psv.env.oracle
    ensures s.vms[0].psv.env.log <= Step(s, c).vms[0].psv.env.log
  {
    hide Step;
    StepTrace(s, c, 0);
  }

  lemma StepFails(s: Sys)
    requires Stands(s, Running, 1, 1, []) && |s.vms[0].psv.env.log| == 8
    ensures Stands(Step(s, Start(0)), Failed, 1, 2, []) && |Step(s, Start(0)).vms[0].psv.env.log| > 8
  {
    hide StartRequest, Unseen;
    StartFails(s.vms[0]);
    StartKeepsConfig(s.vms[0]);
    KeepsOracle(s, Start(0));
  }

  lemma StepResets(s: Sys)
    requires Stands(s, Failed, 1, 2, [])
    ensures Stands(Step(s, ResetFail(0)), Init, 1, 2, [])
  {
    NotedKeepsChildren(s.vms[0].psv, Entered(Init, 0));
    hide Unseen;
  }

  lemma StepReboots(s: Sys)
    requires Stands(s, Running, 2, 3, [])
    ensures Stands(Step(s, Exit(0, Exited(0))), RestartStopped, 1, 3, [0])
  {
    hide Unseen, OnExit;
    var vm := s.vms[0];
    ExitCounts(vm, Exited(0));
    OnExitArrives(Noted(vm.psv, Delivered(Exited(0))), 0);
    KeepsOracle(s, Exit(0, Exited(0)));
  }

  lemma StepDisturbs(s: Sys)
    requires Stands(s, RestartStopped, 1, 3, [0])
    ensures var c := Exit(0, Signaled(9)); Tidy(s) && Disturbs(s, c) && !Tidy(Step(s, c))
  {
    hide Unseen, ExitEvent;
    assert Waiting(s) == [0];
    FailingExit(s.vms[0], Signaled(9));
    KeepSpoils(s, 0, ExitEvent(s.vms[0], Signaled(9)));
  }

  lemma OlderChild(a: Sys, b: Sys, c: Sys, d: Sys, e: Sys, f: Sys)
    requires Stands(a, Init, 0, 0, []) && a.vms[0].psv.env.log == [] && b == Step(a, Start(0))
    requires WellFormed(b) && c == Step(b, Start(0)) && WellFormed(c) && d == Step(c, ResetFail(0))
    requires WellFormed(d) && e == Step(d, Start(0)) && WellFormed(e) && f == Step(e, Exit(0, Exited(0)))
    ensures b.vms != [] && b.vms[0].psv.state == Running && d.vms != [] && d.vms[0].psv.state == Init
    ensures Stands(f, RestartStopped, 1, 3, [0])
  {
    hide Step, Unseen, OneBadAnswer;
    StepRuns(a, 0, 0);
    StepFails(b);
    StepResets(c);
    KeepsOracle(c, ResetFail(0));
    StepRuns(d, 1, 2);
    StepReboots(e);
  }

  // The commands of an execution with an older child.
  ghost predicate OlderChildCommands(cs: seq<Command>) {
    |cs| == 6 && cs[0] == Start(0) && cs[1] == Start(0) && cs[2] == ResetFail(0) && cs[3] == Start(0) &&
    cs[4] == Exit(0, Exited(0)) && cs[5] == Exit(0, Signaled(9))
  }

  lemma OlderChildStates(x: Execution)
    requires Possible(x) && Fresh(x.states[0]) && x.states[0].vms != [] && OlderChildCommands(x.cs)
    requires OneBadAnswer(At(x, 0, 0).psv.env.oracle) && At(x, 0, 0).config.maxrestart >= 2
    ensures At(x, 0, 0).psv.state == Init && At(x, 1, 0).psv.state == Running && At(x, 3, 0).psv.state == Init
    ensures Stands(x.states[5], RestartStopped, 1, 3, [0])
  {
    var s := x.states[0];
    assert Stands(s, Init, 0, 0, []) by { assert FreshVm(s.vms[0]); }
    hide Step, Stands, OneBadAnswer, Fresh;
    assert Follows(x, 0) && Follows(x, 1) && Follows(x, 2) && Follows(x, 3) && Follows(x, 4);
    OlderChild(s, x.states[1], x.states[2], x.states[3], x.states[4], x.states[5]);
  }

  /** From a fresh director and without an impatient client: a failed generation leaves a
      child behind, the machine is reset, started and rebooted, and the end of the older
      child takes it out of RESTART_STOPPED while it is queued. */
  lemma OlderChildDisturbs(x: Execution)
    requires Possible(x) && Fresh(x.states[0]) && x.states[0].vms != [] && OlderChildCommands(x.cs)
    requires OneBadAnswer(At(x, 0, 0).psv.env.oracle) && At(x, 0, 0).config.maxrestart >= 2
    ensures forall k {:trigger ImpatientAt(x, k)} :: 0 <= k < 6 ==> !ImpatientAt(x, k)
    ensures Tidy(x.states[5]) && DisturbedAt(x, 5) && !Tidy(x.states[6])
  {
    hide Step, Stands, Tidy, Disturbs, OneBadAnswer, Fresh;
    OlderChildStates(x);
    StepDisturbs(x.states[5]);
    assert Follows(x, 5);
    forall k | 0 <= k < 6 ensures !ImpatientAt(x, k) {
      if k == 0 || k == 1 || k == 3 { assert At(x, k, 0).psv.state != RestartStopped; }
    }
  }
}
