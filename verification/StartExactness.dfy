/** Exactly when psv_startvm succeeds, what it then has done, and exactly when it
    launches a child although a start hook failed.
  */
module StartExactness {
  import opened Lifecycle
  import opened ProcessSpec
  import opened HookHistory

  // All actions journaled one after the other.
  ghost function NoteAll(e: Env, acts: seq<Action>): Env
    decreases acts
  {
    if acts == [] then e else NoteAll(Note(e, acts[0]), acts[1..])
  }

  // The n-th answer from here on.
  ghost function Later(p: Psv, n: nat): Answer { p.env.oracle(|p.env.log| + n) }

  ghost function StartSequence(from: VmState, pid: nat): seq<Action> {
    if from == RestartStopped
    then [Entered(PrestartAfterRestart, 0), Entered(StartAfterRestart, 0), Launched(true, pid),
          Entered(Restarted, 0), Entered(Running, 0)]
    else [Entered(StartNetwork, 0), Entered(StartStorage, 0), Launched(true, pid), Entered(Running, 0)]
  }

  // Both start hooks, the launch and the hooks after it are answered well.
  ghost predicate GoodStart(p: Psv) {
    Later(p, 0).hook == 0 && Later(p, 1).hook == 0 && Later(p, 2).launched && Later(p, 3).hook == 0 &&
    (p.state == RestartStopped ==> Later(p, 4).hook == 0)
  }

  // ---- walks -------------------------------------------------------------------

  // Hooks succeed where these answers are asked for.
  ghost predicate Fine(p: Psv, from: nat, to: nat) {
    forall i :: from <= i < to ==> Later(p, i).hook == 0
  }

  // Every step of the path is allowed, whatever came before.
  ghost predicate IsPath(from: VmState, path: seq<VmState>)
    decreases path
  {
    path == [] || (path[0] != Init && Allowed(from, path[0]) && IsPath(path[0], path[1..]))
  }

  /** A walk along allowed states arrives exactly when all its hooks succeed. */
  lemma {:induction false} WalkExactly(p: Psv, path: seq<VmState>)
    requires IsPath(p.state, path)
    ensures Walk(p, path).ok <==> Fine(p, 0, |path|)
    ensures Walk(p, path).ok ==>
      |Walk(p, path).psv.env.log| == |p.env.log| + |path| && Walk(p, path).psv.env.oracle == p.env.oracle
    decreases path
  {
    if path != [] {
      var m := Enter(p, path[0]);
      assert Ask(p.env) == Later(p, 0);
      if m.ok {
        var rest := path[1..];
        WalkExactly(m.psv, rest);
        forall i | 0 <= i < |rest| ensures Later(m.psv, i) == Later(p, i + 1) {
        }
        if Fine(p, 0, |path|) {
          forall i | 0 <= i < |rest| ensures Later(m.psv, i).hook == 0 {
            assert Later(m.psv, i) == Later(p, i + 1);
          }
        }
        if Fine(m.psv, 0, |rest|) {
          forall i | 0 <= i < |path| ensures Later(p, i).hook == 0 {
            if i > 0 { assert Later(p, i) == Later(m.psv, i - 1); }
          }
        }
      }
    }
  }

  lemma FailureExactly(p: Psv)
    ensures FailureState(p).ok <==> Fine(p, 0, 4)
    ensures FailureState(p).ok ==>
      FailureState(p).psv.state == Failed && |FailureState(p).psv.env.log| == |p.env.log| + 4 &&
      FailureState(p).psv.env.oracle == p.env.oracle
  {
    assert IsPath(p.state, FAILURE) by {
      assert FAILURE[1..] == [StopNetwork, Stopped, Failed];
      assert IsPath(Failed, []);
      assert IsPath(Stopped, [Failed]);
      assert IsPath(StopNetwork, [Stopped, Failed]);
      assert IsPath(StopStorage, [StopNetwork, Stopped, Failed]);
    }
    WalkExactly(p, FAILURE);
    if FailureState(p).ok { WalkArrives(p, FAILURE); }
  }

  // ---- success ------------------------------------------------------------------

  // A failure walk never reaches RUNNING, wherever it stops.
  lemma {:induction false} WalkStaysOn(p: Psv, path: seq<VmState>)
    ensures Walk(p, path).psv.state == p.state || Walk(p, path).psv.state in path
    decreases path
  {
    if path != [] {
      var m := Enter(p, path[0]);
      if m.ok { WalkStaysOn(m.psv, path[1..]); }
    }
  }

  // The two start hooks succeed; or they do not but the machine can be brought
  // to FAILED, once or, when the first hook of a restart fails, twice.
  ghost predicate GoesOnToLaunch(p: Psv) {
    if Later(p, 0).hook == 0 then Later(p, 1).hook == 0 || Fine(p, 2, 6)
    else p.state == RestartStopped && Fine(p, 1, 9)
  }

  lemma FirstHookExactly(p: Psv)
    requires Startable(p.state)
    ensures FirstHook(p).psv.state != Running
    ensures FirstHook(p).ok <==> Later(p, 0).hook == 0 || (p.state == RestartStopped && Fine(p, 1, 5))
    ensures FirstHook(p).ok ==>
      var q := FirstHook(p).psv;
      q.env.oracle == p.env.oracle &&
      if Later(p, 0).hook != 0 then |q.env.log| == |p.env.log| + 5 && q.state == Failed
      else |q.env.log| == |p.env.log| + 1 &&
           q.state == if p.state == RestartStopped then PrestartAfterRestart else StartNetwork
  {
    var m := Enter(p, if p.state == RestartStopped then PrestartAfterRestart else StartNetwork);
    assert Ask(p.env) == Later(p, 0);
    if !m.ok && p.state == RestartStopped {
      FailureExactly(m.psv);
      WalkStaysOn(m.psv, FAILURE);
      ShiftFine(p, m.psv, 1, 4);
    }
  }

  // Answers seen from a later moment.
  lemma ShiftAnswers(p: Psv, q: Psv, shift: nat)
    requires q.env.oracle == p.env.oracle && |q.env.log| == |p.env.log| + shift
    ensures forall i: nat :: Later(q, i) == Later(p, shift + i)
    ensures forall i: nat, j: nat :: Fine(q, i, j) <==> Fine(p, shift + i, shift + j)
  {
    forall i: nat, j: nat ensures Fine(q, i, j) <==> Fine(p, shift + i, shift + j) {
      if Fine(p, shift + i, shift + j) {
        forall k | i <= k < j ensures Later(q, k).hook == 0 {
          assert Later(p, shift + k) == Later(q, k);
        }
      }
      if Fine(q, i, j) {
        forall k | shift + i <= k < shift + j ensures Later(p, k).hook == 0 {
          assert Later(p, k) == Later(q, k - shift);
        }
      }
    }
  }

  lemma ShiftFine(p: Psv, q: Psv, shift: nat, n: nat)
    requires q.env.oracle == p.env.oracle && |q.env.log| == |p.env.log| + shift
    ensures Fine(q, 0, n) <==> Fine(p, shift, shift + n)
  {
    ShiftAnswers(p, q, shift);
    assert Fine(q, 0, n) <==> Fine(p, shift + 0, shift + n);
  }

  /** psv_startvm reaches the launch exactly when both start hooks succeed, or one
      fails and the fallback to FAILED succeeds: then a child is launched for a
      machine in FAILED. */
  lemma LaunchReachedExactly(p: Psv)
    requires Startable(p.state)
    ensures BringUp(p).psv.state != Running
    ensures BringUp(p).ok <==> GoesOnToLaunch(p)
    ensures BringUp(p).ok ==>
      var q := BringUp(p).psv;
      q.env.oracle == p.env.oracle &&
      if Later(p, 0).hook != 0 || Later(p, 1).hook != 0 then q.state == Failed
      else |q.env.log| == |p.env.log| + 2 &&
           q.state == if p.state == RestartStopped then StartAfterRestart else StartStorage
  {
    FirstHookExactly(p);
    var q := FirstHook(p).psv;
    if FirstHook(p).ok {
      SecondHookExactly(q, p.state == RestartStopped);
      if Later(p, 0).hook == 0 {
        ShiftAnswers(p, q, 1);
        assert Later(q, 0) == Later(p, 1);
        assert Fine(q, 1, 5) <==> Fine(p, 2, 6);
      } else {
        ShiftAnswers(p, q, 5);
        assert Fine(q, 0, 4) <==> Fine(p, 5, 9);
        assert Fine(p, 1, 9) <==> Fine(p, 1, 5) && Fine(p, 5, 9);
      }
    }
  }

  lemma SecondHookExactly(p: Psv, restarting: bool)
    requires p.state == Failed || p.state == if restarting then PrestartAfterRestart else StartNetwork
    ensures SecondHook(p, restarting).psv.state != Running
    ensures SecondHook(p, restarting).ok <==>
      if p.state == Failed then Fine(p, 0, 4) else Later(p, 0).hook == 0 || Fine(p, 1, 5)
    ensures SecondHook(p, restarting).ok ==>
      var q := SecondHook(p, restarting).psv;
      q.env.oracle == p.env.oracle &&
      if p.state == Failed || Later(p, 0).hook != 0 then q.state == Failed
      else |q.env.log| == |p.env.log| + 1 && q.state == LaunchState(restarting)
  {
    var m := Enter(p, if restarting then StartAfterRestart else StartStorage);
    assert Ask(p.env) == Later(p, 0);
    if !m.ok {
      FailureExactly(m.psv);
      WalkStaysOn(m.psv, FAILURE);
      if p.state == Failed {
        assert m.psv == p;
      } else {
        ShiftFine(p, m.psv, 1, 4);
      }
    }
  }

  // The state from which the states after the launch can be entered, and their hooks.
  ghost function LaunchState(restarting: bool): VmState {
    if restarting then StartAfterRestart else StartStorage
  }

  ghost function SettleSequence(restarting: bool): seq<Action> {
    if restarting then [Entered(Restarted, 0), Entered(Running, 0)] else [Entered(Running, 0)]
  }

  lemma FailureEndsDown(p: Psv)
    ensures p.state != Running ==> FailureState(p).psv.state != Running
  {
    WalkStaysOn(p, FAILURE);
  }

  lemma SettleExactly(p: Psv, restarting: bool)
    requires p.state == LaunchState(restarting) || p.state == Failed
    ensures var d := Settle(p, restarting);
      (d.rc == 0 <==>
        p.state == LaunchState(restarting) && Later(p, 0).hook == 0 &&
        (restarting ==> Later(p, 1).hook == 0)) &&
      (d.psv.state == Running <==> d.rc == 0) &&
      (d.rc == 0 ==> d.psv.pid == p.pid && d.psv.env == NoteAll(p.env, SettleSequence(restarting)))
  {
    hide Fine, FailureState;
    var m := Enter(p, if restarting then Restarted else Running);
    assert Ask(p.env) == Later(p, 0);
    if restarting {
      assert Walk(p, [Restarted, Running]) == if m.ok then Walk(m.psv, [Running]) else m by {
        assert [Restarted, Running][1..] == [Running];
      }
      if m.ok {
        ShiftAnswers(p, m.psv, 1);
        assert Ask(m.psv.env) == Later(m.psv, 0) == Later(p, 1);
        var n := Enter(m.psv, Running);
        assert Walk(m.psv, [Running]) == n;
        FailureEndsDown(n.psv);
        NoteTwo(p.env, Entered(Restarted, 0), Entered(Running, 0));
      } else {
        FailureEndsDown(m.psv);
      }
    } else {
      assert Walk(p, [Running]) == m;
      NoteOne(p.env, Entered(Running, 0));
      FailureEndsDown(m.psv);
    }
  }

  lemma NoteOne(e: Env, a: Action)
    ensures NoteAll(e, [a]) == Note(e, a)
  {
    assert NoteAll(Note(e, a), []) == Note(e, a);
    assert [a][1..] == [];
  }

  lemma NoteTwo(e: Env, a: Action, b: Action)
    ensures NoteAll(e, [a, b]) == Note(Note(e, a), b)
  {
    assert [a, b][1..] == [b];
    NoteOne(Note(e, a), b);
  }

  lemma {:induction false} NoteAllAppend(e: Env, a: seq<Action>, b: seq<Action>)
    ensures NoteAll(e, a + b) == NoteAll(NoteAll(e, a), b)
    decreases a
  {
    if a == [] {
      assert a + b == b;
    } else {
      assert (a + b)[1..] == a[1..] + b;
      NoteAllAppend(Note(e, a[0]), a[1..], b);
    }
  }

  lemma LaunchExactly(p: Psv, restarting: bool)
    requires p.state == LaunchState(restarting) || p.state == Failed
    ensures var d := LaunchAndSettle(p, restarting);
      (d.rc == 0 <==>
        p.state == LaunchState(restarting) && Later(p, 0).launched && Later(p, 1).hook == 0 &&
        (restarting ==> Later(p, 2).hook == 0)) &&
      (d.psv.state == Running <==> d.rc == 0) &&
      (d.rc == 0 ==>
        d.psv.pid == Later(p, 0).pid &&
        d.psv.env == NoteAll(Note(p.env, Launched(true, d.psv.pid)), SettleSequence(restarting)))
  {
    assert Ask(p.env) == Later(p, 0);
    var l := Launch(p);
    ShiftAnswers(p, l.psv, 1);
    assert Later(l.psv, 0) == Later(p, 1) && Later(l.psv, 1) == Later(p, 2);
    if l.ok { SettleExactly(l.psv, restarting); }
    WalkStaysOn(l.psv, FAILURE);
  }

  /** For every pattern of hook and launch failures: started from INIT, STOPPED or
      RESTART_STOPPED, psv_startvm returns 0 exactly when the hooks on the way and
      the launch succeed, exactly when the machine ends in RUNNING; and then the
      journal is the cold or the restart sequence with one successful launch just
      before the hook of RUNNING (respectively RESTARTED), and the machine keeps
      the id of that child. */
  lemma StartSucceedsExactly(p: Psv)
    requires Startable(p.state)
    ensures var d := StartVm(p);
      (d.rc == 0 <==> GoodStart(p)) &&
      (d.rc == 0 <==> d.psv.state == Running) &&
      (d.rc == 0 ==> d.psv.env == NoteAll(p.env, StartSequence(p.state, d.psv.pid)) &&
                     d.psv.pid == Later(p, 2).pid)
  {
    var restarting := p.state == RestartStopped;
    LaunchReachedExactly(p);
    var up := BringUp(p);
    if up.ok {
      LaunchExactly(up.psv, restarting);
      if Later(p, 0).hook == 0 && Later(p, 1).hook == 0 {
        ShiftAnswers(p, up.psv, 2);
        assert Later(up.psv, 0) == Later(p, 2) && Later(up.psv, 1) == Later(p, 3) && Later(up.psv, 2) == Later(p, 4);
        BringUpJournal(p);
        var d := StartVm(p);
        var (x, y) := if restarting then (PrestartAfterRestart, StartAfterRestart) else (StartNetwork, StartStorage);
        var tail := SettleSequence(restarting);
        assert StartSequence(p.state, d.psv.pid) ==
          [Entered(x, 0), Entered(y, 0)] + ([Launched(true, d.psv.pid)] + tail);
        NoteAllAppend(p.env, [Entered(x, 0), Entered(y, 0)], [Launched(true, d.psv.pid)] + tail);
        assert ([Launched(true, d.psv.pid)] + tail)[1..] == tail;
      }
    }
  }

  lemma BringUpJournal(p: Psv)
    requires Startable(p.state) && Later(p, 0).hook == 0 && Later(p, 1).hook == 0
    ensures BringUp(p).psv.env == NoteAll(p.env,
      if p.state == RestartStopped then [Entered(PrestartAfterRestart, 0), Entered(StartAfterRestart, 0)]
      else [Entered(StartNetwork, 0), Entered(StartStorage, 0)])
  {
    var (x, y) := if p.state == RestartStopped then (PrestartAfterRestart, StartAfterRestart)
                  else (StartNetwork, StartStorage);
    assert Ask(p.env) == Later(p, 0);
    var m := Enter(p, x);
    ShiftAnswers(p, m.psv, 1);
    assert Ask(m.psv.env) == Later(m.psv, 0) == Later(p, 1);
    NoteTwo(p.env, Entered(x, 0), Entered(y, 0));
  }
}
