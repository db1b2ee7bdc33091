/** How often a child is really launched. The limiter counts recorded start attempts;
    the launch follows its record after the start hooks, which take time. So a window
    may hold one launch more than it may hold records, and exactly when it can depends
    on how long after its record a launch may come.
  */
module LaunchLimit {
  import opened Wrappers
  import opened Lifecycle
  import opened ProcessSpec
  import opened DirectorSpec
  import opened Executions
  import opened Traces
  import opened StartExactness
  import opened RestartLimit
  import opened Accounting

  // Time of the last record, unless a launch has used it up.
  ghost function ArmedBy(c: seq<Event>): Option<int> {
    if c == [] then None
    else
      var e := c[|c| - 1];
      if e.action == Stamped then Some(e.at)
      else if e.action.Launched? then None
      else ArmedBy(c[..|c| - 1])
  }

  // Every launch uses up a record of its own.
  ghost predicate Paired(c: seq<Event>) {
    c == [] ||
    (Paired(c[..|c| - 1]) && (c[|c| - 1].action.Launched? ==> ArmedBy(c[..|c| - 1]).Some?))
  }

  ghost predicate Ordered(c: seq<Event>) {
    forall i, j :: 0 <= i < j < |c| ==> c[i].at <= c[j].at
  }

  lemma {:induction false} NothingBefore(c: seq<Event>, lo: int, hi: int)
    requires forall i :: 0 <= i < |c| ==> c[i].at < lo
    ensures LaunchesWithin(c, lo, hi) == 0
    decreases |c|
  {
    if c != [] { NothingBefore(c[..|c| - 1], lo, hi); }
  }

  lemma {:induction false} LaunchesFollowRecords(c: seq<Event>, lo: int, hi: int)
    requires Ordered(c) && Paired(c)
    ensures LaunchesWithin(c, lo, hi) <= StampsWithin(c, lo, hi) + 1
    ensures ArmedBy(c).Some? ==> c != [] && ArmedBy(c).value <= c[|c| - 1].at
    ensures ArmedBy(c).Some? && ArmedBy(c).value <= hi ==>
      LaunchesWithin(c, lo, hi) <= StampsWithin(c, lo, hi)
    decreases |c|
  {
    if c != [] {
      var prefix := c[..|c| - 1];
      var e := c[|c| - 1];
      LaunchesFollowRecords(prefix, lo, hi);
      if e.action == Stamped && e.at < lo { NothingBefore(prefix, lo, hi); }
      if e.action != Stamped && !e.action.Launched? && prefix != [] {
        assert prefix[|prefix| - 1].at <= e.at;
      }
    }
  }

  // Every launch comes at most d seconds after the record it uses up.
  ghost predicate Prompt(c: seq<Event>, d: nat) {
    c == [] ||
    (Prompt(c[..|c| - 1], d) &&
     (c[|c| - 1].action.Launched? ==>
       ArmedBy(c[..|c| - 1]).Some? && c[|c| - 1].at - ArmedBy(c[..|c| - 1]).value <= d))
  }

  lemma {:induction false} PromptWeakens(c: seq<Event>, d: nat, e: nat)
    requires Prompt(c, d) && d <= e
    ensures Prompt(c, e)
    decreases |c|
  {
    if c != [] { PromptWeakens(c[..|c| - 1], d, e); }
  }

  // A record that a launch may still use up is worth one launch.
  lemma {:induction false} PromptLaunchesFollowRecords(c: seq<Event>, lo: int, hi: int, d: nat)
    requires Ordered(c) && Prompt(c, d)
    ensures ArmedBy(c).Some? ==> c != [] && ArmedBy(c).value <= c[|c| - 1].at
    ensures LaunchesWithin(c, lo, hi) +
        (if ArmedBy(c).Some? && lo - d <= ArmedBy(c).value <= hi then 1 else 0) <= StampsWithin(c, lo - d, hi)
    decreases |c|
  {
    if c != [] {
      var prefix := c[..|c| - 1];
      PromptLaunchesFollowRecords(prefix, lo, hi, d);
      if prefix != [] { assert prefix[|prefix| - 1].at <= c[|c| - 1].at; }
    }
  }

  // ---- runs ----------------------------------------------------------------------------

  // In a list of actions a launch only stands right after a record and its
  // configuration.
  ghost predicate LaunchShape(acts: seq<Action>) {
    forall i :: 0 <= i < |acts| && acts[i].Launched? ==>
      i == 3 && acts[1] == Stamped && acts[2].Generated?
  }

  lemma AttemptShape(vm: Vm)
    ensures AttemptActs(vm) != [] && AttemptActs(vm)[0].Generated?
    ensures forall i :: 0 <= i < |AttemptActs(vm)| && AttemptActs(vm)[i].Launched? ==> i == 1
  {
  }

  lemma StepShape(s: Sys, c: Command, v: nat)
    requires WellFormed(s) && v < |s.vms|
    ensures LaunchShape(StepActs(s, c, v))
  {
    AttemptShape(Stamping(Counting(s.vms[v])));
  }

  lemma RecordArms(c: seq<Event>, tail: seq<Event>)
    requires 3 <= |tail| && tail[1].action == Stamped && tail[2].action.Generated?
    ensures ArmedBy(c + tail[..3]).Some?
  {
    var d := c + tail[..3];
    assert d[..|d| - 1] == c + tail[..2];
    assert (c + tail[..2])[|c| + 1] == tail[1];
  }

  lemma {:induction false} PairedAppend(c: seq<Event>, tail: seq<Event>, acts: seq<Action>)
    requires Paired(c) && Are(tail, acts) && LaunchShape(acts)
    ensures Paired(c + tail)
    decreases |tail|
  {
    if tail == [] {
      assert c + tail == c;
    } else {
      hide ArmedBy;
      var n := |tail| - 1;
      assert (c + tail)[..|c + tail| - 1] == c + tail[..n];
      PairedAppend(c, tail[..n], acts[..n]);
      if acts[n].Launched? {
        assert n == 3;
        RecordArms(c, tail);
      }
    }
  }

  lemma {:induction false} AlwaysPaired(x: Execution, i: nat, v: nat)
    requires InRange(x, i, v) && Fresh(x.states[0])
    ensures Paired(Core(At(x, i, v).psv.env.log))
    decreases i
  {
    if i > 0 {
      hide Step, StepActs;
      AlwaysPaired(x, i - 1, v);
      assert Follows(x, i - 1);
      StepTrace(x.states[i - 1], x.cs[i - 1], v);
      StepShape(x.states[i - 1], x.cs[i - 1], v);
      var (p, q) := (At(x, i - 1, v).psv, At(x, i, v).psv);
      PairedAppend(Core(p.env.log), Added(p, q), StepActs(x.states[i - 1], x.cs[i - 1], v));
    }
  }

  /** In every execution, a window of maxrestarttime seconds holds at most
      maxrestart + 2 launches by the clock of the launches themselves. */
  lemma LaunchesAreLimited(x: Execution, i: nat, v: nat, lo: int, hi: int)
    requires InRange(x, i, v) && Fresh(x.states[0])
    requires At(x, 0, v).config.maxrestart < 0xFFFF_FFFF && hi - lo <= At(x, 0, v).config.maxrestarttime
    ensures LaunchesWithin(At(x, i, v).psv.env.log, lo, hi) <= At(x, 0, v).config.maxrestart + 2
  {
    var log := At(x, i, v).psv.env.log;
    AttemptsAreLimited(x, i, v, lo, hi);
    AlwaysPaired(x, i, v);
    AlwaysLimited(x, i, v);
    LaunchesFollowRecords(Core(log), lo, hi);
    HooksDoNotCount(log, lo, hi);
  }

  /** When no launch comes more than d seconds after its record, a window that is d seconds
      shorter than maxrestarttime holds at most maxrestart + 1 launches; with d == 0 this is
      the full window. */
  lemma PromptLaunchesAreLimited(x: Execution, i: nat, v: nat, lo: int, hi: int, d: nat)
    requires InRange(x, i, v) && Fresh(x.states[0]) && Prompt(Core(At(x, i, v).psv.env.log), d)
    requires At(x, 0, v).config.maxrestart < 0xFFFF_FFFF && hi - lo + d <= At(x, 0, v).config.maxrestarttime
    ensures LaunchesWithin(At(x, i, v).psv.env.log, lo, hi) <= At(x, 0, v).config.maxrestart + 1
  {
    hide LaunchesWithin, StampsWithin, Limited, Suffix, Stamps, Core;
    var log := At(x, i, v).psv.env.log;
    AttemptsAreLimited(x, i, v, lo - d, hi);
    AlwaysLimited(x, i, v);
    PromptLaunchesFollowRecords(Core(log), lo, hi, d);
    HooksDoNotCount(log, lo, hi);
    HooksDoNotCount(log, lo - d, hi);
  }

  // ---- exactly when a window holds one launch more ------------------------------------------

  // The first start hook takes d seconds and the last start comes when the first record has
  // just left the window; nothing else takes time, and the child always halts at once.
  ghost function Delayed(m: nat, w: nat, d: nat): nat -> Answer
    requires d <= w + 1
  {
    (n: nat) => Answer(if n == 3 then d else if n == 11 * (m + 1) then w + 1 - d else 0,
                       0, true, 7, 0, 0, Reaped(Exited(1)))
  }

  // Time after n questions.
  ghost function TimeAfter(n: nat, m: nat, w: nat, d: nat): nat {
    if n <= 3 then 0 else if n <= 11 * (m + 1) then d else w + 1
  }

  ghost predicate Ticks(e: Env, m: nat, w: nat, d: nat) {
    d <= w + 1 && e.oracle == Delayed(m, w, d) && e.now == TimeAfter(|e.log|, m, w, d)
  }

  // Everything succeeds and the child halts at once.
  ghost predicate Brisk(oracle: nat -> Answer) {
    forall n: nat ::
      oracle(n).hook == 0 && oracle(n).generate == 0 && oracle(n).launched && oracle(n).pid == 7 &&
      oracle(n).probe == Reaped(Exited(1))
  }

  ghost function Entries(path: seq<VmState>): seq<Action>
    decreases path
  {
    if path == [] then [] else [Entered(path[0], 0)] + Entries(path[1..])
  }

  lemma {:induction false} WalkJournal(p: Psv, path: seq<VmState>)
    requires HooksOblige(p.env.oracle) && IsPath(p.state, path)
    ensures Walk(p, path).ok && Walk(p, path).psv.env == NoteAll(p.env, Entries(path))
    decreases path
  {
    if path != [] {
      var m := Enter(p, path[0]);
      assert m.ok && m.psv.env == Note(p.env, Entered(path[0], 0)) by { assert Ask(p.env).hook == 0; }
      WalkJournal(m.psv, path[1..]);
      assert Entries(path)[1..] == Entries(path[1..]);
    }
  }

  // What a start journals when the child halts at once.
  const BRIEF: seq<Action> := [
    Counted, Stamped, Generated(0), Entered(StartNetwork, 0), Entered(StartStorage, 0),
    Launched(true, 7), Entered(Running, 0), Probed(Reaped(Exited(1))),
    Entered(StopStorage, 0), Entered(StopNetwork, 0), Entered(Stopped, 0)
  ]

  // A journal of this length with one launch, at this place.
  ghost predicate IsBrief(acts: seq<Action>) {
    |acts| == 11 && Launches(acts) == 1 && forall i :: 0 <= i < |acts| && acts[i].Launched? ==> i == 5
  }

  lemma BriefStart(vm: Vm) returns (acts: seq<Action>)
    requires Brisk(vm.psv.env.oracle) && !CountFail(vm)
    requires vm.psv.state == Init || vm.psv.state == Stopped
    ensures IsBrief(acts)
    ensures var t := StartRequest(vm).vm;
      t.psv.env == NoteAll(vm.psv.env, acts) && t.psv.state == Stopped && t.config == vm.config &&
      t.startups == Counting(vm).startups + [Stamping(Counting(vm)).psv.env.now]
  {
    hide IsBrief, Attempt, NoteAll;
    var st := Stamping(Counting(vm));
    StartRequestIsAttempt(vm);
    var rest := BriefAttempt(st);
    AttemptKeepsQueue(st);
    NoteTwo(vm.psv.env, Counted, Stamped);
    NoteAllAppend(vm.psv.env, [Counted, Stamped], rest);
    acts := [Counted, Stamped] + rest;
  }

  lemma BriefAttempt(vm: Vm) returns (rest: seq<Action>)
    requires Brisk(vm.psv.env.oracle) && (vm.psv.state == Init || vm.psv.state == Stopped)
    ensures IsBrief([Counted, Stamped] + rest)
    ensures Attempt(vm).vm.psv.env == NoteAll(vm.psv.env, rest)
    ensures Attempt(vm).vm.psv.state == Stopped
  {
    hide IsBrief, NoteAll, Launches, Attempt, LookAtChild, StartVm;
    rest := BRIEF[2..];
    TailIsBrief(rest);
    var g := Noted(vm.psv, Generated(0));
    BriefVm(g);
    AttemptGoesOn(vm);
    var d := StartVm(g);
    BriefLook(vm.(psv := d.psv));
    NoteOne(vm.psv.env, Generated(0));
    NoteAllAppend(g.env, BRIEF[3..7], BRIEF[7..]);
    assert BRIEF[3..7] + BRIEF[7..] == BRIEF[3..];
    NoteAllAppend(vm.psv.env, [Generated(0)], BRIEF[3..]);
    assert [Generated(0)] + BRIEF[3..] == BRIEF[2..];
  }

  lemma AttemptGoesOn(vm: Vm)
    requires Ask(vm.psv.env).generate == 0 && StartVm(Noted(vm.psv, Generated(0))).rc == 0
    ensures Attempt(vm) == LookAtChild(vm.(psv := StartVm(Noted(vm.psv, Generated(0))).psv))
  {
  }

  lemma BriefVm(p: Psv)
    requires Brisk(p.env.oracle) && (p.state == Init || p.state == Stopped)
    ensures var d := StartVm(p);
      d.rc == 0 && d.psv.state == Running && d.psv.env == NoteAll(p.env, BRIEF[3..7]) &&
      d.psv.env.oracle == p.env.oracle
  {
    StartSucceedsExactly(p);
    OracleOfNoteAll(p.env, BRIEF[3..7]);
    assert StartSequence(p.state, 7) == BRIEF[3..7];
  }

  lemma BriefLook(vm: Vm)
    requires Brisk(vm.psv.env.oracle) && vm.psv.state == Running
    ensures LookAtChild(vm).vm.psv.env == NoteAll(vm.psv.env, BRIEF[7..])
    ensures LookAtChild(vm).vm.psv.state == Stopped
  {
    var probe := Probed(Reaped(Exited(1)));
    DownJournal(Noted(vm.psv, probe));
    EntriesOfDown();
    NoteOne(vm.psv.env, probe);
    NoteAllAppend(vm.psv.env, [probe], Entries(DOWN));
    assert [probe] + Entries(DOWN) == BRIEF[7..];
  }

  lemma EntriesOfDown()
    ensures Entries(DOWN) == [Entered(StopStorage, 0), Entered(StopNetwork, 0), Entered(Stopped, 0)]
  {
    assert DOWN[1..] == [StopNetwork, Stopped];
    assert [StopNetwork, Stopped][1..] == [Stopped];
    assert [Stopped][1..] == [];
    assert Entries([Stopped]) == [Entered(Stopped, 0)];
    assert Entries([StopNetwork, Stopped]) == [Entered(StopNetwork, 0), Entered(Stopped, 0)];
  }

  lemma DownJournal(p: Psv)
    requires HooksOblige(p.env.oracle) && p.state == Running
    ensures OnExit(p, 1, Accepting).psv.env == NoteAll(p.env, Entries(DOWN))
    ensures OnExit(p, 1, Accepting).psv.state == Stopped && OnExit(p, 1, Accepting).rc == 0
  {
    assert IsPath(p.state, DOWN) by {
      assert DOWN[1..] == [StopNetwork, Stopped];
      assert IsPath(Stopped, []);
      assert IsPath(StopNetwork, [Stopped]);
      assert IsPath(StopStorage, [StopNetwork, Stopped]);
    }
    WalkJournal(p, DOWN);
    DownArrives(p);
  }

  lemma {:induction false} OracleOfNoteAll(e: Env, acts: seq<Action>)
    ensures NoteAll(e, acts).oracle == e.oracle
    decreases acts
  {
    if acts != [] { OracleOfNoteAll(Note(e, acts[0]), acts[1..]); }
  }

  ghost function Launches(acts: seq<Action>): nat
    decreases acts
  {
    if acts == [] then 0 else (if acts[0].Launched? then 1 else 0) + Launches(acts[1..])
  }

  lemma TailIsBrief(rest: seq<Action>)
    requires rest == BRIEF[2..]
    ensures IsBrief([Counted, Stamped] + rest)
  {
    hide Launches;
    var all := [Counted, Stamped] + rest;
    assert all == BRIEF;
    BriefLaunchesOnce();
  }

  lemma BriefLaunchesOnce()
    ensures Launches(BRIEF) == 1
  {
    hide Launches;
    LaunchesAppend(BRIEF[..5], BRIEF[5..]);
    assert BRIEF[..5] + BRIEF[5..] == BRIEF;
    NoLaunch(BRIEF[..5]);
    NoLaunch(BRIEF[6..]);
    LaunchFirst(BRIEF[5..]);
    assert BRIEF[5..][1..] == BRIEF[6..];
  }

  lemma LaunchFirst(acts: seq<Action>)
    requires acts != [] && acts[0].Launched?
    ensures Launches(acts) == 1 + Launches(acts[1..])
  {
  }

  lemma {:induction false} NoLaunch(acts: seq<Action>)
    requires forall i :: 0 <= i < |acts| ==> !acts[i].Launched?
    ensures Launches(acts) == 0
    decreases acts
  {
    if acts != [] { NoLaunch(acts[1..]); }
  }

  lemma {:induction false} LaunchesAppend(a: seq<Action>, b: seq<Action>)
    ensures Launches(a + b) == Launches(a) + Launches(b)
    decreases a
  {
    if a == [] {
      assert a + b == b;
    } else {
      assert (a + b)[1..] == a[1..] + b;
      LaunchesAppend(a[1..], b);
    }
  }

  // ---- one start after the other ---------------------------------------------------------

  lemma {:induction false} ClockRuns(e: Env, acts: seq<Action>, m: nat, w: nat, d: nat)
    requires Ticks(e, m, w, d)
    requires forall i :: 0 <= i < |acts| && acts[i].Launched? ==> |e.log| + i >= 3
    ensures Ticks(NoteAll(e, acts), m, w, d) && |NoteAll(e, acts).log| == |e.log| + |acts|
    ensures LaunchesWithin(NoteAll(e, acts).log, d, w + 1) == LaunchesWithin(e.log, d, w + 1) + Launches(acts)
    decreases acts
  {
    if acts != [] {
      var f := Note(e, acts[0]);
      assert f.log[..|f.log| - 1] == e.log;
      ClockRuns(f, acts[1..], m, w, d);
    }
  }

  // After the first k starts: k launches from time d on, each at most d seconds late.
  ghost predicate Onward(vm: Vm, k: nat, m: nat, w: nat, d: nat) {
    Ticks(vm.psv.env, m, w, d) && |vm.psv.env.log| == 11 * k &&
    vm.psv.state == (if k == 0 then Init else Stopped) &&
    vm.config.maxrestart == m && vm.config.maxrestarttime == w &&
    LaunchesWithin(vm.psv.env.log, d, w + 1) == k && Prompt(Core(vm.psv.env.log), d) &&
    |vm.startups| <= k && (|vm.startups| == k > 0 ==> vm.startups[0] == 0)
  }

  // A start whose launch comes at most d seconds after its record.
  lemma PromptStart(vm: Vm, d: nat)
    requires Prompt(Core(vm.psv.env.log), d) && !CountFail(vm) && vm.psv.state != Failed
    requires StartRequest(vm).vm.psv.env.now - Stamping(Counting(vm)).psv.env.now <= d
    ensures Prompt(Core(StartRequest(vm).vm.psv.env.log), d)
  {
    hide Attempt, AttemptActs, Prompt, Extended;
    var st := Stamping(Counting(vm));
    StartRequestIsAttempt(vm);
    PromptRecord(vm, d);
    AttemptTrace(st);
    AttemptShape(st);
    PromptTail(st.psv, Attempt(st).vm.psv, AttemptActs(st), d);
  }

  lemma PromptRecord(vm: Vm, d: nat)
    requires Prompt(Core(vm.psv.env.log), d)
    ensures var q := Stamping(Counting(vm)).psv;
      Prompt(Core(q.env.log), d) && ArmedBy(Core(q.env.log)) == Some(q.env.now)
  {
    var (p, q) := (Counting(vm).psv, Stamping(Counting(vm)).psv);
    CoreOfNoted(vm.psv, Counted);
    CoreOfNoted(p, Stamped);
    var c := Core(vm.psv.env.log);
    assert (c + [Event(p.env.now, Counted)])[..|c|] == c;
    var e := Core(p.env.log);
    assert (e + [Event(q.env.now, Stamped)])[..|e|] == e;
  }

  lemma CoreOfNoted(p: Psv, a: Action)
    requires !a.Entered? && !a.Left?
    ensures Core(Noted(p, a).env.log) == Core(p.env.log) + [Event(Noted(p, a).env.now, a)]
  {
    var q := Noted(p, a);
    assert q.env.log[..|q.env.log| - 1] == p.env.log;
  }

  lemma PromptTail(p: Psv, q: Psv, acts: seq<Action>, d: nat)
    requires Extended(p, q, acts) && acts != [] && acts[0].Generated? && q.env.now - p.env.now <= d
    requires forall i :: 0 <= i < |acts| && acts[i].Launched? ==> i == 1
    requires Prompt(Core(p.env.log), d) && ArmedBy(Core(p.env.log)) == Some(p.env.now)
    ensures Prompt(Core(q.env.log), d)
  {
    PromptAppend(Core(p.env.log), Added(p, q), d, p.env.now);
  }

  lemma {:induction false} PromptAppend(c: seq<Event>, tail: seq<Event>, d: nat, at: int)
    requires Prompt(c, d) && ArmedBy(c) == Some(at)
    requires tail != [] ==> tail[0].action.Generated?
    requires forall i :: 0 <= i < |tail| ==> tail[i].at - at <= d && (tail[i].action.Launched? ==> i == 1)
    ensures Prompt(c + tail, d) && (|tail| == 1 ==> ArmedBy(c + tail) == Some(at))
    decreases |tail|
  {
    if tail == [] {
      assert c + tail == c;
    } else {
      var n := |tail| - 1;
      assert (c + tail)[..|c + tail| - 1] == c + tail[..n];
      PromptAppend(c, tail[..n], d, at);
      if n == 0 { assert c + tail[..n] == c; }
    }
  }

  lemma NextStart(vm: Vm, k: nat, m: nat, w: nat, d: nat)
    requires Onward(vm, k, m, w, d) && k <= m + 1
    ensures Onward(StartRequest(vm).vm, k + 1, m, w, d)
  {
    hide LaunchesWithin, Prompt, StartRequest, Core;
    assert Brisk(vm.psv.env.oracle);
    BudgetLeft(vm, k, m, w, d);
    var acts := BriefStart(vm);
    ClockRuns(vm.psv.env, acts, m, w, d);
    StampClock(vm, m, w, d);
    PromptStart(vm, d);
  }

  lemma StampClock(vm: Vm, m: nat, w: nat, d: nat)
    requires Ticks(vm.psv.env, m, w, d)
    ensures Ticks(Counting(vm).psv.env, m, w, d) && Ticks(Stamping(Counting(vm)).psv.env, m, w, d)
    ensures |Stamping(Counting(vm)).psv.env.log| == |vm.psv.env.log| + 2
  {
  }

  // The budget lets every one of these starts pass.
  lemma BudgetLeft(vm: Vm, k: nat, m: nat, w: nat, d: nat)
    requires Onward(vm, k, m, w, d) && k <= m + 1
    ensures !CountFail(vm) && |Counting(vm).startups| <= k
    ensures k <= m && |Counting(vm).startups| == k > 0 ==> Counting(vm).startups[0] == 0
    ensures k == m + 1 ==> |Counting(vm).startups| <= m
  {
    hide LaunchesWithin, Prompt, Core;
    StampClock(vm, m, w, d);
    PruneIsSuffix(vm.startups, Counting(vm).psv.env.now - w);
  }

  lemma {:induction false} StartsGoOnward(x: Execution, k: nat, m: nat, w: nat, d: nat)
    requires InRange(x, k, 0) && k <= m + 2 && Onward(At(x, 0, 0), 0, m, w, d)
    requires forall i :: 0 <= i < |x.cs| ==> x.cs[i] == Start(0)
    ensures Onward(At(x, k, 0), k, m, w, d)
    decreases k
  {
    if k > 0 {
      hide Step, StartRequest, Onward;
      StartsGoOnward(x, k - 1, m, w, d);
      assert Follows(x, k - 1);
      StartStepStarts(x.states[k - 1], Start(0), 0);
      NextStart(At(x, k - 1, 0), k - 1, m, w, d);
    }
  }

  // An execution in which machine v launches at most d seconds after each record.
  ghost predicate PromptRun(x: Execution, i: nat, v: nat, m: nat, w: int, d: nat) {
    InRange(x, i, v) && Fresh(x.states[0]) && Prompt(Core(At(x, i, v).psv.env.log), d) &&
    At(x, 0, v).config.maxrestart == m && At(x, 0, v).config.maxrestarttime == w
  }

  /** For every maxrestart, every window and every delay up to the window: an execution of
      start requests whose launches come at most d seconds after their records, and a window
      of w + 1 - d seconds that holds maxrestart + 2 of them. */
  lemma LaunchBoundIsMet(m: nat, w: nat, d: nat) returns (x: Execution)
    requires d <= w + 1
    ensures PromptRun(x, m + 2, 0, m, w, d)
    ensures LaunchesWithin(At(x, m + 2, 0).psv.env.log, d, w + 1) == m + 2
  {
    var vm := Vm(Config("vm", m, w), Psv(Init, 0, Env(Delayed(m, w, d), [], 0)), []);
    assert Onward(vm, 0, m, w, d);
    hide Step, Onward, LaunchesWithin, Prompt;
    x := ExecutionExists(Sys([vm], [], None, [], []), seq(m + 2, _ => Start(0)));
    StartsGoOnward(x, m + 2, m, w, d);
    OnwardMeans(At(x, m + 2, 0), m + 2, m, w, d);
  }

  lemma OnwardMeans(vm: Vm, k: nat, m: nat, w: nat, d: nat)
    requires Onward(vm, k, m, w, d)
    ensures LaunchesWithin(vm.psv.env.log, d, w + 1) == k && Prompt(Core(vm.psv.env.log), d)
  {
  }

  // The window of u seconds from `lo` on holds at most one launch more than maxrestart.
  ghost predicate WithinLimit(x: Execution, i: nat, v: nat, m: nat, w: int, d: nat, lo: int, u: nat) {
    PromptRun(x, i, v, m, w, d) ==> LaunchesWithin(At(x, i, v).psv.env.log, lo, lo + u) <= m + 1
  }

  /** The launch limit, exactly: where launches come at most d seconds after their records,
      a window of u seconds holds at most maxrestart + 1 launches in every execution if and
      only if u + d <= maxrestarttime; so in the full window if and only if d == 0. */
  lemma LaunchLimitExactly(m: nat, w: nat, d: nat, u: nat)
    requires m < 0xFFFF_FFFF
    ensures (forall x: Execution, i: nat, v: nat, lo: int :: WithinLimit(x, i, v, m, w, d, lo, u)) <==> u + d <= w
  {
    hide Prompt, LaunchesWithin;
    if u + d <= w {
      forall x: Execution, i: nat, v: nat, lo: int ensures WithinLimit(x, i, v, m, w, d, lo, u) {
        if PromptRun(x, i, v, m, w, d) { PromptLaunchesAreLimited(x, i, v, lo, lo + u, d); }
      }
    } else {
      var late := if d <= w + 1 then d else w + 1;
      var x := LaunchBoundIsMet(m, w, late);
      PromptWeakens(Core(At(x, m + 2, 0).psv.env.log), late, d);
      WiderWindow(At(x, m + 2, 0).psv.env.log, late, w + 1, late + u);
      assert !WithinLimit(x, m + 2, 0, m, w, d, late, u);
    }
  }

  lemma {:induction false} WiderWindow(log: seq<Event>, lo: int, hi: int, later: int)
    requires hi <= later
    ensures LaunchesWithin(log, lo, hi) <= LaunchesWithin(log, lo, later)
    decreases |log|
  {
    if log != [] { WiderWindow(log[..|log| - 1], lo, hi, later); }
  }
}
