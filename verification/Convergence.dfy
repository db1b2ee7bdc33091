/** Bounded convergence: a machine that is asked to start too often within one window
    ends in FAILED, whatever state and history it had, and stays there until it is
    reset; so a loop of instant reboots is cut off.
  */
module Convergence {
  import opened Lifecycle
  import opened ProcessSpec
  import opened DirectorSpec
  import opened Executions
  import opened Traces
  import opened RestartLimit
  import opened Accounting

  // Over the budget, or FAILED already: the machine is FAILED afterwards.
  lemma StartRefused(vm: Vm)
    requires HooksOblige(vm.psv.env.oracle) && (CountFail(vm) || vm.psv.state == Failed)
    ensures StartRequest(vm).vm.psv.state == Failed
  {
    FailureArrives(Counting(vm).psv);
  }

  // Otherwise the attempt is put into the queue.
  lemma StartRecorded(vm: Vm)
    requires !CountFail(vm) && vm.psv.state != Failed
    ensures StartRequest(vm).vm.startups ==
      Counting(vm).startups + [Stamping(Counting(vm)).psv.env.now]
  {
    AttemptKeepsQueue(Stamping(Counting(vm)));
  }

  /** When hooks succeed, FAILED is left by a reset only. */
  lemma FailedStays(s: Sys, c: Command, v: nat)
    requires WellFormed(s) && v < |s.vms| && c != ResetFail(v)
    requires HooksOblige(s.vms[v].psv.env.oracle) && s.vms[v].psv.state == Failed
    ensures Step(s, c).vms[v].psv.state == Failed
  {
    hide StartRequest, ExitEvent, StopOrReboot;
    var vm := s.vms[v];
    FailedIsInert(vm.psv);
    if Starts(s, c, v) {
      StartStepStarts(s, c, v);
      StartRefused(vm);
    } else if c.Exit? && c.v == v {
      FailedExit(vm, c.status);
    }
  }

  lemma FailedIsInert(p: Psv)
    requires p.state == Failed
    ensures StopOrReboot(p, false).psv == p && StopOrReboot(p, true).psv == p
  {
  }

  lemma FailedExit(vm: Vm, status: WaitStatus)
    requires HooksOblige(vm.psv.env.oracle) && vm.psv.state == Failed
    ensures ExitEvent(vm, status).vm.psv.state == Failed
  {
    FailureArrives(Noted(vm.psv, Delivered(status)));
  }

  /** When hooks succeed, a FAILED machine is left in another state by a step if and only
      if the step is its reset, which brings it to INIT. */
  lemma FailedLeftExactly(s: Sys, c: Command, v: nat)
    requires WellFormed(s) && v < |s.vms|
    requires HooksOblige(s.vms[v].psv.env.oracle) && s.vms[v].psv.state == Failed
    ensures Step(s, c).vms[v].psv.state == if c == ResetFail(v) then Init else Failed
  {
    if c != ResetFail(v) { FailedStays(s, c, v); }
  }

  // ---- the queue fills up -----------------------------------------------------------

  // The last r entries of the queue are not before t0.
  ghost predicate Recent(queue: seq<int>, r: nat, t0: int) {
    r <= |queue| && forall i :: |queue| - r <= i < |queue| ==> queue[i] >= t0
  }

  lemma {:induction false} PruneKeepsRecent(queue: seq<int>, r: nat, t0: int, deadline: int)
    requires Recent(queue, r, t0) && deadline <= t0
    ensures Recent(Prune(queue, deadline), r, t0)
    ensures |Prune(queue, deadline)| <= |queue|
    decreases |queue|
  {
    if queue != [] && queue[0] < deadline { PruneKeepsRecent(queue[1..], r, t0, deadline); }
  }

  // A start request looks at its budget in [t0, t0 + maxrestarttime].
  ghost predicate InWindow(vm: Vm, t0: int) {
    t0 <= Counting(vm).psv.env.now <= t0 + vm.config.maxrestarttime
  }

  // All start requests for v in the first i steps do.
  ghost predicate StartsInWindow(x: Execution, i: nat, v: nat, t0: int)
    requires InRange(x, i, v)
  {
    forall k {:trigger StartAt(x, k, v)} :: 0 <= k < i && StartAt(x, k, v) ==> InWindow(At(x, k, v), t0)
  }

  // Step k is a start request for v, by a client or by the restart thread.
  ghost predicate StartAt(x: Execution, k: nat, v: nat)
    requires Possible(x) && k < |x.cs|
  {
    Starts(x.states[k], x.cs[k], v)
  }

  ghost function StartsBefore(x: Execution, i: nat, v: nat): nat
    requires Possible(x) && i <= |x.cs|
  {
    if i == 0 then 0 else StartsBefore(x, i - 1, v) + (if StartAt(x, i - 1, v) then 1 else 0)
  }

  // FAILED already, or r recent attempts are queued. The bound on the queue
  // holds in every reachable state (Limited).
  ghost predicate Filling(vm: Vm, r: nat, t0: int) {
    vm.psv.state == Failed ||
    (|vm.startups| <= vm.config.maxrestart + 1 && Recent(vm.startups, r, t0))
  }

  lemma StartFills(vm: Vm, r: nat, t0: int)
    requires HooksOblige(vm.psv.env.oracle) && vm.config.maxrestart < UINT_MAX
    requires Filling(vm, r, t0) && InWindow(vm, t0)
    ensures Filling(StartRequest(vm).vm, r + 1, t0)
  {
    if CountFail(vm) || vm.psv.state == Failed {
      StartRefused(vm);
    } else {
      StartRecorded(vm);
      RecentGrows(vm, r, t0);
    }
  }

  lemma RecentGrows(vm: Vm, r: nat, t0: int)
    requires vm.config.maxrestart < UINT_MAX && !CountFail(vm) && InWindow(vm, t0)
    requires |vm.startups| <= vm.config.maxrestart + 1 && Recent(vm.startups, r, t0)
    ensures var queue := Counting(vm).startups + [Stamping(Counting(vm)).psv.env.now];
      |queue| <= vm.config.maxrestart + 1 && Recent(queue, r + 1, t0)
  {
    PruneKeepsRecent(vm.startups, r, t0, Counting(vm).psv.env.now - vm.config.maxrestarttime);
  }

  lemma StepFills(s: Sys, c: Command, v: nat, r: nat, t0: int)
    requires WellFormed(s) && v < |s.vms| && c != ResetFail(v)
    requires HooksOblige(s.vms[v].psv.env.oracle) && s.vms[v].config.maxrestart < UINT_MAX
    requires Filling(s.vms[v], r, t0) && (Starts(s, c, v) ==> InWindow(s.vms[v], t0))
    ensures Filling(Step(s, c).vms[v], if Starts(s, c, v) then r + 1 else r, t0)
    ensures Step(s, c).vms[v].config == s.vms[v].config
  {
    if Starts(s, c, v) {
      StartStepStarts(s, c, v);
      StartFills(s.vms[v], r, t0);
      StartKeepsConfig(s.vms[v]);
    } else {
      OtherStepsAreQuiet(s, c, v);
      if s.vms[v].psv.state == Failed { FailedStays(s, c, v); }
    }
  }

  lemma {:induction false} AlwaysFills(x: Execution, i: nat, v: nat, t0: int)
    requires InRange(x, i, v) && ResetFail(v) !in x.cs
    requires HooksOblige(At(x, 0, v).psv.env.oracle) && At(x, 0, v).config.maxrestart < UINT_MAX
    requires |At(x, 0, v).startups| <= At(x, 0, v).config.maxrestart + 1 && StartsInWindow(x, i, v, t0)
    ensures Filling(At(x, i, v), StartsBefore(x, i, v), t0)
    ensures At(x, i, v).config == At(x, 0, v).config
    decreases i
  {
    if i > 0 {
      hide Step;
      AlwaysFills(x, i - 1, v, t0);
      JournalsGrow(x, 0, i - 1, v);
      assert Follows(x, i - 1) && (StartAt(x, i - 1, v) ==> InWindow(At(x, i - 1, v), t0));
      StepFills(x.states[i - 1], x.cs[i - 1], v, StartsBefore(x, i - 1, v), t0);
    }
  }

  /** From any state and any bounded queue: an execution with succeeding hooks and no
      reset in which maxrestart + 2 start requests look at their budget within one
      window leaves the machine FAILED, whatever else happens in between. */
  lemma TooManyStartsFail(x: Execution, i: nat, v: nat, t0: int)
    requires InRange(x, i, v) && ResetFail(v) !in x.cs
    requires HooksOblige(At(x, 0, v).psv.env.oracle) && At(x, 0, v).config.maxrestart < 0xFFFF_FFFF
    requires |At(x, 0, v).startups| <= At(x, 0, v).config.maxrestart + 1 && StartsInWindow(x, i, v, t0)
    requires StartsBefore(x, i, v) >= At(x, 0, v).config.maxrestart + 2
    ensures At(x, i, v).psv.state == Failed
  {
    AlwaysFills(x, i, v, t0);
  }

  /** FAILED stays over whole executions without a reset. */
  lemma {:induction false} FailedAlwaysStays(x: Execution, i: nat, v: nat)
    requires InRange(x, i, v) && ResetFail(v) !in x.cs
    requires HooksOblige(At(x, 0, v).psv.env.oracle) && At(x, 0, v).psv.state == Failed
    ensures At(x, i, v).psv.state == Failed
    decreases i
  {
    if i > 0 {
      hide Step;
      FailedAlwaysStays(x, i - 1, v);
      JournalsGrow(x, 0, i - 1, v);
      assert Follows(x, i - 1);
      FailedStays(x.states[i - 1], x.cs[i - 1], v);
    }
  }
}
