/** The sliding-window restart limiter over whole runs: counting in the pruned queue
    is counting in the whole history, and no window of maxrestarttime seconds ever
    holds more than maxrestart + 1 recorded start attempts.
  */
module RestartLimit {
  import opened Wrappers
  import opened Lifecycle
  import opened ProcessSpec
  import opened DirectorSpec
  import opened Executions
  import opened Traces

  // ---- histories ------------------------------------------------------------

  // Times of all start attempts ever recorded.
  ghost function Stamps(log: seq<Event>): seq<int> {
    if log == [] then []
    else
      var e := log[|log| - 1];
      Stamps(log[..|log| - 1]) + (if e.action == Stamped then [e.at] else [])
  }

  // Events with this kind of action in a closed window of time.
  ghost function StampsWithin(log: seq<Event>, lo: int, hi: int): nat {
    if log == [] then 0
    else
      var e := log[|log| - 1];
      StampsWithin(log[..|log| - 1], lo, hi) + (if e.action == Stamped && lo <= e.at <= hi then 1 else 0)
  }

  ghost function LaunchesWithin(log: seq<Event>, lo: int, hi: int): nat {
    if log == [] then 0
    else
      var e := log[|log| - 1];
      LaunchesWithin(log[..|log| - 1], lo, hi) + (if e.action.Launched? && lo <= e.at <= hi then 1 else 0)
  }

  ghost function CountFrom(times: seq<int>, deadline: int): nat {
    if times == [] then 0
    else CountFrom(times[..|times| - 1], deadline) + (if times[|times| - 1] >= deadline then 1 else 0)
  }

  lemma {:induction false} StampsOfCore(log: seq<Event>)
    ensures Stamps(Core(log)) == Stamps(log)
    decreases |log|
  {
    if log != [] {
      var prefix := log[..|log| - 1];
      var e := log[|log| - 1];
      StampsOfCore(prefix);
      if e.action.Entered? || e.action.Left? {
        assert Core(log) == Core(prefix) && Stamps(log) == Stamps(prefix);
      } else {
        assert Core(log)[|Core(log)| - 1] == e && Core(log)[..|Core(log)| - 1] == Core(prefix);
      }
    }
  }

  lemma WindowsAreAdditive(lo: int, hi: int)
    ensures Additive(log => StampsWithin(log, lo, hi),
      (e: Event) => if e.action == Stamped && lo <= e.at <= hi then 1 else 0)
    ensures Additive(log => LaunchesWithin(log, lo, hi),
      (e: Event) => if e.action.Launched? && lo <= e.at <= hi then 1 else 0)
  {
    assert forall log: seq<Event>, e: Event {:trigger log + [e]} :: (log + [e])[..|log|] == log;
  }

  lemma HooksDoNotCount(log: seq<Event>, lo: int, hi: int)
    ensures StampsWithin(Core(log), lo, hi) == StampsWithin(log, lo, hi)
    ensures LaunchesWithin(Core(log), lo, hi) == LaunchesWithin(log, lo, hi)
  {
    WindowsAreAdditive(lo, hi);
    CountOfCore(c => StampsWithin(c, lo, hi),
                (e: Event) => if e.action == Stamped && lo <= e.at <= hi then 1 else 0, log);
    CountOfCore(c => LaunchesWithin(c, lo, hi),
                (e: Event) => if e.action.Launched? && lo <= e.at <= hi then 1 else 0, log);
  }

  lemma {:induction false} QuietStamps(c: seq<Event>, d: seq<Event>)
    requires c <= d && forall i :: |c| <= i < |d| ==> d[i].action != Stamped
    ensures Stamps(d) == Stamps(c)
    decreases |d|
  {
    if c != d {
      assert c <= d[..|d| - 1];
      QuietStamps(c, d[..|d| - 1]);
    } else {
      assert d == c;
    }
  }

  lemma NotedStamp(p: Psv, a: Action)
    ensures Stamps(Noted(p, a).env.log) ==
      Stamps(p.env.log) + (if a == Stamped then [Noted(p, a).env.now] else [])
  {
    var e := Event(p.env.now + Ask(p.env).elapsed, a);
    assert (p.env.log + [e])[..|p.env.log|] == p.env.log;
  }

  // ---- the pruned queue -------------------------------------------------------

  ghost predicate Sorted(times: seq<int>) {
    forall i, j :: 0 <= i < j < |times| ==> times[i] <= times[j]
  }

  // The queue is a suffix of the history; what was pruned is too old for every
  // deadline from `horizon` on.
  ghost predicate Suffix(times: seq<int>, queue: seq<int>, horizon: int) {
    |queue| <= |times| && queue == times[|times| - |queue|..] &&
    forall i :: 0 <= i < |times| - |queue| ==> times[i] < horizon
  }

  lemma {:induction false} PruneIsSuffix(queue: seq<int>, deadline: int)
    ensures Suffix(queue, Prune(queue, deadline), deadline)
    ensures var q := Prune(queue, deadline); q != [] ==> q[0] >= deadline
    decreases |queue|
  {
    if queue != [] && queue[0] < deadline {
      var rest := queue[1..];
      PruneIsSuffix(rest, deadline);
      var q := Prune(rest, deadline);
      assert queue[|queue| - |q|..] == rest[|rest| - |q|..];
      forall i | 0 <= i < |queue| - |q| ensures queue[i] < deadline {
        if i > 0 { assert queue[i] == rest[i - 1]; }
      }
    }
  }

  lemma SuffixOfSuffix(times: seq<int>, queue: seq<int>, horizon: int, deadline: int)
    requires Suffix(times, queue, horizon) && horizon <= deadline
    ensures Suffix(times, Prune(queue, deadline), deadline)
  {
    PruneIsSuffix(queue, deadline);
    var q := Prune(queue, deadline);
    var gone := |times| - |queue|;
    assert times[|times| - |q|..] == queue[|queue| - |q|..];
    forall i | 0 <= i < |times| - |q| ensures times[i] < deadline {
      if i >= gone { assert times[i] == queue[i - gone]; }
    }
  }

  lemma {:induction false} CountSplit(stale: seq<int>, recent: seq<int>, deadline: int)
    requires forall i :: 0 <= i < |stale| ==> stale[i] < deadline
    requires forall i :: 0 <= i < |recent| ==> recent[i] >= deadline
    ensures CountFrom(stale + recent, deadline) == |recent|
    decreases |stale| + |recent|
  {
    var all := stale + recent;
    if recent != [] {
      assert all[..|all| - 1] == stale + recent[..|recent| - 1];
      CountSplit(stale, recent[..|recent| - 1], deadline);
    } else if stale != [] {
      assert all == stale && all[..|all| - 1] == stale[..|stale| - 1] + [];
      CountSplit(stale[..|stale| - 1], [], deadline);
    }
  }

  /** Pruned counting agrees with the simple thing: for a nondecreasing history and
      a deadline not before the horizon of earlier ones, what is left after pruning
      is as long as the number of entries of the whole history since the deadline. */
  lemma PrunedCountIsCount(times: seq<int>, queue: seq<int>, horizon: int, deadline: int)
    requires Sorted(times) && Suffix(times, queue, horizon) && horizon <= deadline
    ensures |Prune(queue, deadline)| == CountFrom(times, deadline)
  {
    SuffixOfSuffix(times, queue, horizon, deadline);
    PruneIsSuffix(queue, deadline);
    var q := Prune(queue, deadline);
    var stale := times[..|times| - |q|];
    assert stale + q == times;
    forall i | 0 <= i < |q| ensures q[i] >= deadline {
      assert q[i] == times[|stale| + i] && q[0] == times[|stale|];
    }
    CountSplit(stale, q, deadline);
  }

  // ---- the limit ---------------------------------------------------------------

  // Any m + 2 consecutive attempts span more than `window`.
  ghost predicate Spread(times: seq<int>, m: nat, window: int) {
    forall i, j :: 0 <= i && i + m + 1 == j < |times| ==> times[j] - times[i] > window
  }

  ghost predicate TimesInOrder(p: Psv) {
    var c := Core(p.env.log);
    (forall i, j :: 0 <= i < j < |c| ==> c[i].at <= c[j].at) &&
    (forall i :: 0 <= i < |c| ==> c[i].at <= p.env.now)
  }

  // The queue of a machine remembers all that a later count needs.
  ghost predicate Remembered(vm: Vm) {
    TimesInOrder(vm.psv) &&
    Suffix(Stamps(vm.psv.env.log), vm.startups, vm.psv.env.now - vm.config.maxrestarttime)
  }

  ghost predicate Limited(vm: Vm) {
    |vm.startups| <= vm.config.maxrestart + 1 &&
    Spread(Stamps(vm.psv.env.log), vm.config.maxrestart, vm.config.maxrestarttime)
  }

  lemma {:induction false} StampsInOrder(c: seq<Event>, bound: int)
    requires forall i, j :: 0 <= i < j < |c| ==> c[i].at <= c[j].at
    requires forall i :: 0 <= i < |c| ==> c[i].at <= bound
    ensures Sorted(Stamps(c))
    ensures forall i :: 0 <= i < |Stamps(c)| ==> Stamps(c)[i] <= bound
    decreases |c|
  {
    if c != [] { StampsInOrder(c[..|c| - 1], c[|c| - 1].at); }
  }

  lemma RememberedIsSorted(vm: Vm)
    requires Remembered(vm)
    ensures Sorted(Stamps(vm.psv.env.log))
    ensures forall i :: 0 <= i < |Stamps(vm.psv.env.log)| ==> Stamps(vm.psv.env.log)[i] <= vm.psv.env.now
  {
    StampsInOrder(Core(vm.psv.env.log), vm.psv.env.now);
    StampsOfCore(vm.psv.env.log);
  }

  /** Whenever the budget of a machine is looked at, the count taken in its pruned
      queue is the number of start attempts of the whole history in the window. */
  lemma BudgetCountsHistory(vm: Vm)
    requires Remembered(vm)
    ensures var deadline := Counting(vm).psv.env.now - vm.config.maxrestarttime;
      CountSince(vm.startups, deadline) == CountFrom(Stamps(vm.psv.env.log), deadline) % (UINT_MAX + 1)
  {
    RememberedIsSorted(vm);
    PrunedCountIsCount(Stamps(vm.psv.env.log), vm.startups, vm.psv.env.now - vm.config.maxrestarttime,
                       Counting(vm).psv.env.now - vm.config.maxrestarttime);
  }

  // ---- preservation -------------------------------------------------------------

  lemma TimesStayInOrder(p: Psv, q: Psv, acts: seq<Action>)
    requires Extended(p, q, acts) && TimesInOrder(p)
    ensures TimesInOrder(q)
  {
    var (a, b) := (Core(p.env.log), Core(q.env.log));
    forall i, j | 0 <= i < j < |b| ensures b[i].at <= b[j].at {
      if j >= |a| {
        assert b[j] == b[|a| + (j - |a|)];
        if i >= |a| { assert b[i] == b[|a| + (i - |a|)]; }
      }
    }
    forall i | 0 <= i < |b| ensures b[i].at <= q.env.now {
      if i >= |a| { assert b[i] == b[|a| + (i - |a|)]; }
    }
  }

  // A step that records no attempt and leaves the queue alone.
  lemma QuietStep(vm: Vm, q: Psv, acts: seq<Action>)
    requires Extended(vm.psv, q, acts) && Stamped !in acts
    ensures Stamps(q.env.log) == Stamps(vm.psv.env.log)
    ensures Remembered(vm) ==> Remembered(vm.(psv := q))
    ensures Limited(vm) ==> Limited(vm.(psv := q))
  {
    var (a, b) := (Core(vm.psv.env.log), Core(q.env.log));
    forall i | |a| <= i < |b| ensures b[i].action != Stamped {
      assert b[i] == b[|a| + (i - |a|)];
    }
    QuietStamps(a, b);
    StampsOfCore(vm.psv.env.log);
    StampsOfCore(q.env.log);
    if Remembered(vm) { TimesStayInOrder(vm.psv, q, acts); }
  }

  lemma CountingRemembers(vm: Vm)
    requires Remembered(vm)
    ensures Remembered(Counting(vm))
    ensures Stamps(Counting(vm).psv.env.log) == Stamps(vm.psv.env.log)
  {
    hide Suffix, TimesInOrder, Stamps, Core, Prune;
    var q := Noted(vm.psv, Counted);
    NotedTrace(vm.psv, Counted);
    QuietStep(vm, q, [Counted]);
    var deadline := q.env.now - vm.config.maxrestarttime;
    SuffixOfSuffix(Stamps(q.env.log), vm.startups, deadline, deadline);
  }

  lemma CountingLimits(vm: Vm)
    requires Limited(vm)
    ensures Limited(Counting(vm))
  {
    NotedStamp(vm.psv, Counted);
    PruneIsSuffix(vm.startups, Counting(vm).psv.env.now - vm.config.maxrestarttime);
  }

  lemma StampingRemembers(vm: Vm)
    requires Remembered(vm)
    ensures Remembered(Stamping(vm))
  {
    hide TimesInOrder, Stamps, Core;
    var q := Noted(vm.psv, Stamped);
    NotedTrace(vm.psv, Stamped);
    TimesStayInOrder(vm.psv, q, [Stamped]);
    NotedStamp(vm.psv, Stamped);
    var before := Stamps(vm.psv.env.log);
    var after := Stamps(q.env.log);
    assert after[|after| - |vm.startups| - 1..] == before[|before| - |vm.startups|..] + [q.env.now];
  }

  // The budget test is what keeps m + 2 attempts apart.
  lemma StampingLimits(vm: Vm)
    requires Remembered(vm) && Limited(vm) && |vm.startups| <= vm.config.maxrestart
    ensures Limited(Stamping(vm))
  {
    var q := Noted(vm.psv, Stamped);
    NotedStamp(vm.psv, Stamped);
    var before := Stamps(vm.psv.env.log);
    var after := Stamps(q.env.log);
    var (m, window) := (vm.config.maxrestart, vm.config.maxrestarttime);
    forall i, j | 0 <= i && i + m + 1 == j < |after| ensures after[j] - after[i] > window {
      if j < |before| {
        assert before[j] - before[i] > window;
      } else {
        assert i < |before| - |vm.startups|;
        assert before[i] < vm.psv.env.now - window;
      }
    }
  }

  lemma AttemptIsQuiet(vm: Vm)
    ensures Stamped !in AttemptActs(vm)
  {
  }

  lemma StartKeepsLimit(vm: Vm)
    requires Remembered(vm)
    ensures Remembered(StartRequest(vm).vm)
    ensures Limited(vm) && vm.config.maxrestart < UINT_MAX ==> Limited(StartRequest(vm).vm)
  {
    hide Remembered, Limited, Attempt, AttemptActs;
    var counted := Counting(vm);
    CountingRemembers(vm);
    if Limited(vm) { CountingLimits(vm); }
    if CountFail(vm) {
      WalkTrace(counted.psv, FAILURE);
      QuietStep(counted, FailureState(counted.psv).psv, []);
    } else if counted.psv.state != Failed {
      var st := Stamping(counted);
      StampingRemembers(counted);
      if Limited(vm) && vm.config.maxrestart < UINT_MAX { StampingLimits(counted); }
      AttemptTrace(st);
      AttemptIsQuiet(st);
      AttemptKeepsQueue(st);
      QuietStep(st, Attempt(st).vm.psv, AttemptActs(st));
    }
  }

  lemma AttemptKeepsQueue(vm: Vm)
    ensures Attempt(vm).vm == vm.(psv := Attempt(vm).vm.psv)
  {
  }

  lemma StartRequestIsAttempt(vm: Vm)
    requires !CountFail(vm) && vm.psv.state != Failed
    ensures StartRequest(vm) == Attempt(Stamping(Counting(vm)))
  {
  }

  ghost predicate Starts(s: Sys, c: Command, v: nat) {
    c == Start(v) || (c == StartPopped && s.pending == Some(v))
  }

  lemma OtherStepsAreQuiet(s: Sys, c: Command, v: nat)
    requires WellFormed(s) && v < |s.vms| && !Starts(s, c, v)
    ensures Stamped !in StepActs(s, c, v)
    ensures Step(s, c).vms[v] == s.vms[v].(psv := Step(s, c).vms[v].psv)
  {
  }

  lemma StartStepStarts(s: Sys, c: Command, v: nat)
    requires WellFormed(s) && v < |s.vms| && Starts(s, c, v)
    ensures Step(s, c).vms[v] == StartRequest(s.vms[v]).vm
  {
  }

  lemma StepKeepsLimit(s: Sys, c: Command, v: nat)
    requires WellFormed(s) && v < |s.vms| && Remembered(s.vms[v])
    ensures var vm := Step(s, c).vms[v];
      vm.config == s.vms[v].config && Remembered(vm) &&
      (Limited(s.vms[v]) && vm.config.maxrestart < UINT_MAX ==> Limited(vm))
  {
    var vm := s.vms[v];
    if Starts(s, c, v) {
      StartStepStarts(s, c, v);
      StartKeepsLimit(vm);
      StartKeepsConfig(vm);
    } else {
      OtherStepsAreQuiet(s, c, v);
      StepTrace(s, c, v);
      QuietStep(vm, Step(s, c).vms[v].psv, StepActs(s, c, v));
    }
  }

  lemma StartKeepsConfig(vm: Vm)
    ensures StartRequest(vm).vm.config == vm.config
  {
  }

  lemma FreshIsLimited(vm: Vm)
    requires FreshVm(vm)
    ensures Remembered(vm) && Limited(vm)
  {
    assert Core([]) == [] && Stamps([]) == [];
  }

  lemma {:induction false} AlwaysLimited(x: Execution, i: nat, v: nat)
    requires InRange(x, i, v) && Fresh(x.states[0])
    ensures At(x, i, v).config == At(x, 0, v).config && Remembered(At(x, i, v))
    ensures At(x, i, v).config.maxrestart < UINT_MAX ==> Limited(At(x, i, v))
    decreases i
  {
    hide Step, Remembered, Limited;
    if i == 0 {
      FreshIsLimited(At(x, 0, v));
    } else {
      AlwaysLimited(x, i - 1, v);
      assert Follows(x, i - 1);
      StepKeepsLimit(x.states[i - 1], x.cs[i - 1], v);
    }
  }

  // ---- windows ----------------------------------------------------------------------

  ghost function TimesWithin(times: seq<int>, lo: int, hi: int): nat {
    if times == [] then 0
    else
      var t := times[|times| - 1];
      TimesWithin(times[..|times| - 1], lo, hi) + (if lo <= t <= hi then 1 else 0)
  }

  lemma {:induction false} StampsWithinIsTimesWithin(log: seq<Event>, lo: int, hi: int)
    ensures StampsWithin(log, lo, hi) == TimesWithin(Stamps(log), lo, hi)
    decreases |log|
  {
    if log != [] {
      var prefix := log[..|log| - 1];
      StampsWithinIsTimesWithin(prefix, lo, hi);
      var e := log[|log| - 1];
      if e.action == Stamped {
        assert (Stamps(prefix) + [e.at])[..|Stamps(prefix)|] == Stamps(prefix);
      } else {
        assert Stamps(log) == Stamps(prefix);
      }
    }
  }

  lemma {:induction false} AtMost(times: seq<int>, lo: int, hi: int, n: nat)
    requires forall i :: 0 <= i < |times| - n ==> !(lo <= times[i] <= hi)
    ensures TimesWithin(times, lo, hi) <= n
    decreases |times|
  {
    if times != [] {
      var prefix := times[..|times| - 1];
      AtMost(prefix, lo, hi, if n > 0 then n - 1 else 0);
    }
  }

  lemma {:induction false} SpreadLimitsWindows(times: seq<int>, m: nat, window: int, lo: int, hi: int)
    requires Sorted(times) && Spread(times, m, window) && hi - lo <= window
    ensures TimesWithin(times, lo, hi) <= m + 1
    decreases |times|
  {
    if times != [] {
      var last := |times| - 1;
      var prefix := times[..last];
      if lo <= times[last] <= hi {
        forall i | 0 <= i < |times| - (m + 1) ensures !(lo <= times[i] <= hi) {
          assert times[i + m + 1] - times[i] > window;
        }
        AtMost(times, lo, hi, m + 1);
      } else {
        SpreadLimitsWindows(prefix, m, window, lo, hi);
      }
    }
  }

  /** In every execution from a fresh director, any window of maxrestarttime seconds
      holds at most maxrestart + 1 recorded start attempts of a machine, however start
      requests, reboots, stops, resets and exits are interleaved. */
  lemma AttemptsAreLimited(x: Execution, i: nat, v: nat, lo: int, hi: int)
    requires InRange(x, i, v) && Fresh(x.states[0])
    requires At(x, 0, v).config.maxrestart < 0xFFFF_FFFF && hi - lo <= At(x, 0, v).config.maxrestarttime
    ensures StampsWithin(At(x, i, v).psv.env.log, lo, hi) <= At(x, 0, v).config.maxrestart + 1
  {
    AlwaysLimited(x, i, v);
    var vm := At(x, i, v);
    RememberedIsSorted(vm);
    StampsWithinIsTimesWithin(vm.psv.env.log, lo, hi);
    SpreadLimitsWindows(Stamps(vm.psv.env.log), vm.config.maxrestart, vm.config.maxrestarttime, lo, hi);
  }

  lemma LimiterOff(vm: Vm)
    requires vm.config.maxrestart >= 0xFFFF_FFFF
    ensures !CountFail(vm)
  {
  }
}
