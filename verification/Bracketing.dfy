/** Whole-run properties of hook scripts and reboot requests that follow from the
    journal being legal: network and storage hooks are bracketed, and a machine
    that was stopped does not come back by itself.
  */
module Bracketing {
  import opened Lifecycle
  import opened ProcessSpec
  import opened DirectorSpec
  import opened Executions
  import opened HookHistory
  import opened Traces

  // Whether the last successful network (storage) hook was the starting one.
  ghost function NetworkUp(log: seq<Event>): bool {
    if log == [] then false
    else
      var a := log[|log| - 1].action;
      if a == Entered(StartNetwork, 0) then true
      else if a == Entered(StopNetwork, 0) then false
      else NetworkUp(log[..|log| - 1])
  }

  ghost function StorageUp(log: seq<Event>): bool {
    if log == [] then false
    else
      var a := log[|log| - 1].action;
      if a == Entered(StartStorage, 0) then true
      else if a == Entered(StopStorage, 0) then false
      else StorageUp(log[..|log| - 1])
  }

  // What a state says about the two resources. In STOP_STORAGE, which every
  // state may fall into, the network may be either way.
  ghost predicate ResourcesFit(s: VmState, network: bool, storage: bool) {
    match s
    case Init | StopNetwork | Stopped | Failed => !network && !storage
    case StartNetwork => network && !storage
    case StopStorage => !storage
    case _ => network && storage
  }

  lemma {:induction false} StateTellsResources(log: seq<Event>)
    requires Legal(log)
    ensures ResourcesFit(StateOf(log), NetworkUp(log), StorageUp(log))
    decreases |log|
  {
    if log != [] { StateTellsResources(log[..|log| - 1]); }
  }

  lemma {:induction false} LegalAt(log: seq<Event>, k: nat)
    requires Legal(log) && k < |log|
    ensures Legal(log[..k]) && LegalNext(StateOf(log[..k]), log[k].action)
    decreases |log|
  {
    var prefix := log[..|log| - 1];
    if k < |prefix| {
      LegalAt(prefix, k);
      assert prefix[..k] == log[..k];
    }
  }

  // `action` happened strictly between two positions of the journal.
  ghost predicate Between(log: seq<Event>, i: nat, j: nat, action: Action) {
    exists k :: i < k < j <= |log| && log[k].action == action
  }

  lemma {:induction false} NetworkStaysUp(log: seq<Event>, i: nat, j: nat)
    requires i < j <= |log| && log[i].action == Entered(StartNetwork, 0)
    requires !Between(log, i, j, Entered(StopNetwork, 0))
    ensures NetworkUp(log[..j])
    decreases j
  {
    var prefix := log[..j];
    assert prefix[|prefix| - 1] == log[j - 1] && prefix[..|prefix| - 1] == log[..j - 1];
    if j > i + 1 { NetworkStaysUp(log, i, j - 1); }
  }

  lemma {:induction false} StorageStaysUp(log: seq<Event>, i: nat, j: nat)
    requires i < j <= |log| && log[i].action == Entered(StartStorage, 0)
    requires !Between(log, i, j, Entered(StopStorage, 0))
    ensures StorageUp(log[..j])
    decreases j
  {
    var prefix := log[..j];
    assert prefix[|prefix| - 1] == log[j - 1] && prefix[..|prefix| - 1] == log[..j - 1];
    if j > i + 1 { StorageStaysUp(log, i, j - 1); }
  }

  // The bracketing law for one journal.
  ghost predicate Bracketed(log: seq<Event>) {
    forall i, j :: 0 <= i < j < |log| ==> NetworkPair(log, i, j) && StoragePair(log, i, j)
  }

  ghost predicate NetworkPair(log: seq<Event>, i: nat, j: nat)
    requires i < j < |log|
  {
    log[i].action == Entered(StartNetwork, 0) && log[j].action == Entered(StartNetwork, 0) ==>
      Between(log, i, j, Entered(StopNetwork, 0))
  }

  ghost predicate StoragePair(log: seq<Event>, i: nat, j: nat)
    requires i < j < |log|
  {
    log[i].action == Entered(StartStorage, 0) &&
    (log[j].action == Entered(StartStorage, 0) || log[j].action == Entered(StopNetwork, 0)) ==>
      Between(log, i, j, Entered(StopStorage, 0))
  }

  lemma LegalIsBracketed(log: seq<Event>)
    requires Legal(log)
    ensures Bracketed(log)
  {
    forall i, j | 0 <= i < j < |log|
      ensures NetworkPair(log, i, j) && StoragePair(log, i, j)
    {
      LegalAt(log, j);
      StateTellsResources(log[..j]);
      if log[i].action == Entered(StartNetwork, 0) && !Between(log, i, j, Entered(StopNetwork, 0)) {
        NetworkStaysUp(log, i, j);
      }
      if log[i].action == Entered(StartStorage, 0) && !Between(log, i, j, Entered(StopStorage, 0)) {
        StorageStaysUp(log, i, j);
      }
    }
  }

  /** In every execution from a fresh director, with any hook, launch and signal
      failures: two successful network starts have a successful network stop between
      them, a storage start is followed by a storage stop before the next network stop
      or storage start, and the state tells which resources are up. */
  lemma HooksAreBracketed(x: Execution, i: nat, v: nat)
    requires InRange(x, i, v) && Fresh(x.states[0])
    ensures var p := At(x, i, v).psv;
      Bracketed(p.env.log) && ResourcesFit(p.state, NetworkUp(p.env.log), StorageUp(p.env.log))
  {
    FreshIsExplained(x.states[0]);
    AlwaysExplained(x, i);
    var p := At(x, i, v).psv;
    LegalIsBracketed(p.env.log);
    StateTellsResources(p.env.log);
  }

  // ---- a stop sticks -----------------------------------------------------------

  // States from which only a start leads to one in which an exit asks for a reboot.
  ghost predicate AtRest(s: VmState) {
    match s
    case Running | PrestopBeforeRestart | Restarting | RestartStopped
       | PrestartAfterRestart | StartAfterRestart | Restarted => false
    case _ => true
  }

  lemma {:induction false} RestUntilRunning(log: seq<Event>, n: nat, j: nat)
    requires Legal(log) && n <= j <= |log| && AtRest(StateOf(log[..n]))
    requires forall k :: n <= k < j ==> log[k].action != Entered(Running, 0)
    ensures AtRest(StateOf(log[..j]))
    decreases j
  {
    if n < j {
      RestUntilRunning(log, n, j - 1);
      LegalAt(log, j - 1);
      assert log[..j][..j - 1] == log[..j - 1] && log[..j][j - 1] == log[j - 1];
    }
  }

  lemma StoppedIsAtRest(p: Psv)
    requires StopOrReboot(p, false).rc == 0
    ensures AtRest(StopOrReboot(p, false).psv.state)
  {
    var m := Enter(p, Stopping);
    var f := Walk(m.psv, FAILURE);
    if f.ok { WalkArrives(m.psv, FAILURE); }
    if !m.ok && f.ok {
      TerminateArrives(f.psv);
    } else if m.ok {
      TerminateArrives(m.psv);
    }
  }

  lemma TerminateArrives(p: Psv)
    requires Terminate(p).rc == 0
    ensures Terminate(p).psv.state == p.state || Terminate(p).psv.state == Failed
  {
    var q := Noted(p, Terminated(Ask(p.env).term));
    if Walk(q, FAILURE).ok { WalkArrives(q, FAILURE); }
  }

  // Between two lengths of a journal no reboot is requested unless the machine reached
  // RUNNING before.
  ghost predicate RebootsFollowStarts(log: seq<Event>, n: nat) {
    forall j :: n <= j < |log| && log[j].action == RebootAccepted ==>
      exists k :: n <= k < j && log[k].action == Entered(Running, 0)
  }

  lemma RestMeansNoReboot(log: seq<Event>, n: nat)
    requires Legal(log) && n <= |log| && AtRest(StateOf(log[..n]))
    ensures RebootsFollowStarts(log, n)
  {
    forall j | n <= j < |log| && log[j].action == RebootAccepted
      ensures exists k :: n <= k < j && log[k].action == Entered(Running, 0)
    {
      if forall k :: n <= k < j ==> log[k].action != Entered(Running, 0) {
        RestUntilRunning(log, n, j);
        LegalAt(log, j);
      }
    }
  }

  lemma StopStep(s: Sys, v: nat)
    requires WellFormed(s) && v < |s.vms|
    ensures Step(s, Stop(v)).vms[v].psv == StopOrReboot(s.vms[v].psv, false).psv
  {
  }

  /** A stop sticks: after a stop that returned 0, whatever happens next and whatever
      hooks do, a reboot request comes only after a later start has brought the machine
      to RUNNING. */
  lemma StopSticks(x: Execution, n: nat, i: nat, v: nat)
    requires InRange(x, i, v) && Fresh(x.states[0]) && n < i && x.cs[n] == Stop(v)
    requires StopOrReboot(At(x, n, v).psv, false).rc == 0
    ensures var (before, after) := (At(x, n + 1, v).psv.env.log, At(x, i, v).psv.env.log);
      before <= after && RebootsFollowStarts(after, |before|)
  {
    hide Step, StopOrReboot, Legal, StateOf, AtRest, RebootsFollowStarts;
    FreshIsExplained(x.states[0]);
    AlwaysExplained(x, n + 1);
    AlwaysExplained(x, i);
    assert Follows(x, n);
    StopStep(x.states[n], v);
    StoppedIsAtRest(At(x, n, v).psv);
    JournalsGrow(x, n + 1, i, v);
    var (before, after) := (At(x, n + 1, v).psv.env.log, At(x, i, v).psv.env.log);
    assert after[..|before|] == before;
    RestMeansNoReboot(after, |before|);
  }
}
