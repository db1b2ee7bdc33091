/** The director: watched virtual machines, the queue of reboots and the operations of
    bhyve_director.c, proved against the steps of DirectorSpec.
  */
module Directors {
  import opened Wrappers
  import opened Lifecycle
  import PS = ProcessSpec
  import Spec = DirectorSpec
  import Outcomes = StepOutcomes
  import opened ProcessStates

  // ---- one watched machine ------------------------------------------------------

  class WatchedVm {
    const state: ProcessState
    const config: Spec.Config
    var startups: seq<int>

    ghost function Repr(): set<object> { {this} + state.Repr() }

    ghost predicate Valid()
      reads Repr()
    {
      state.Valid()
    }

    ghost function Model(): Spec.Vm
      reads Repr()
    {
      Spec.Vm(config, state.Model(), startups)
    }

    constructor (config: Spec.Config, oracle: nat -> Answer, now: int)
      ensures Valid() && fresh(Repr())
      ensures Spec.FreshVm(Model()) && Model().config == config
      ensures Model().psv.env == Env(oracle, [], now)
    {
      this.config := config;
      state := new ProcessState(oracle, now);
      startups := [];
    }

    // bwv_timestamp
    method Timestamp()
      requires Valid()
      modifies this, state.sth.world
      ensures Valid() && Model() == Spec.Stamping(old(Model()))
    {
      state.sth.world.Record(Stamped);
      startups := startups + [state.sth.world.now];
    }

    // bwv_countrestarts_since
    method CountRestartsSince(deadline: int) returns (counter: nat)
      modifies this
      ensures startups == Spec.Prune(old(startups), deadline)
      ensures counter == Spec.CountSince(old(startups), deadline)
    {
      if startups == [] { return 0; }
      while startups[0] < deadline
        invariant startups != []
        invariant Spec.Prune(startups, deadline) == Spec.Prune(old(startups), deadline)
        decreases |startups|
      {
        startups := startups[1..];
        if startups == [] { return 0; }
      }
      var bst := 0;
      counter := 0;
      while bst < |startups|
        invariant 0 <= bst <= |startups|
        invariant counter == bst % (Spec.UINT_MAX + 1)
      {
        counter := (counter + 1) % (Spec.UINT_MAX + 1);
        bst := bst + 1;
      }
    }

    // bwv_is_countfail
    method IsCountFail() returns (fail: bool)
      requires Valid()
      modifies this, state.sth.world
      ensures Valid() && Model() == Spec.Counting(old(Model())) && fail == Spec.CountFail(old(Model()))
    {
      state.sth.world.Record(Counted);
      var deadline := state.sth.world.now - config.maxrestarttime;
      var count := CountRestartsSince(deadline);
      fail := count > config.maxrestart;
    }

    // The body of bd_startvm after the machine was found. `queued` tells that the
    // reboot manager was called on the way.
    method Start() returns (rc: int, queued: bool)
      requires Valid()
      modifies Repr()
      ensures Valid() && Spec.Handled(Model(), rc, queued) == Spec.StartRequest(old(Model()))
      ensures rc == Outcomes.StartCode(old(Model())) && Model().psv.state == Outcomes.StartRequestEnd(old(Model()))
      ensures queued <==> Outcomes.StartRequestQueues(old(Model()))
    {
      hide Outcomes.StartCode, Outcomes.StartRequestEnd, Outcomes.StartRequestQueues;
      Outcomes.StartRequestEnds(Model());
      queued := false;
      var fail := IsCountFail();
      if fail {
        var _ := state.FailureState();
        return Spec.BD_ERR_VMSTATEISFAIL, false;
      }
      fail := state.IsFailureState();
      if fail { return Spec.BD_ERR_VMSTATEISFAIL, false; }
      Timestamp();
      rc, queued := Attempt();
    }

    method Attempt() returns (rc: int, queued: bool)
      requires Valid()
      modifies Repr()
      ensures Valid() && Spec.Handled(Model(), rc, queued) == Spec.Attempt(old(Model()))
    {
      var generated := state.sth.world.Next().generate;
      state.sth.world.Record(Generated(generated));
      if generated != 0 {
        var _ := state.FailureState();
        return Spec.BD_ERR_VMCONFGENFAIL, false;
      }
      var result := state.StartVm();
      if result != 0 {
        return if result == PS.PSV_ERR_TRANSITIONSFAIL then Spec.BD_ERR_TRANSITCHFAIL
               else Spec.BD_ERR_VMSTARTFAILED, false;
      }
      rc, queued := LookAtChild();
    }

    // kill with signal 0, then waitpid without waiting, then the registration.
    method LookAtChild() returns (rc: int, queued: bool)
      requires Valid()
      modifies Repr()
      ensures Valid() && Spec.Handled(Model(), rc, queued) == Spec.LookAtChild(old(Model()))
    {
      var probe := state.sth.world.Next().probe;
      state.sth.world.Record(Probed(probe));
      match probe
      case Vanished =>
        rc, queued := state.OnExit(4, PS.Accepting);
        rc := 0;
      case Reaped(pidstat) =>
        if pidstat.JobStopped? { return 0, false; }
        rc, queued := state.OnExit(Spec.ExitCode(pidstat), PS.Accepting);
        if rc != 0 { var _ := state.FailureState(); }
        rc := Spec.BD_ERR_VMSTARTDIEDIM;
      case Attached(registered) =>
        rc, queued := if registered < 0 then Spec.BD_ERR_KEVENTREGFAIL else 0, false;
    }

    // The bodies of bd_stopvm and bd_resetfailvm after the machine was found.
    method Stop() returns (rc: int)
      requires Valid()
      modifies Repr()
      ensures Valid() && rc == PS.StopOrReboot(old(Model()).psv, false).rc
      ensures Model() == old(Model()).(psv := PS.StopOrReboot(old(Model()).psv, false).psv)
    {
      rc := state.StopOrReboot(false);
    }

    method ResetFail() returns (rc: int)
      requires Valid()
      modifies Repr()
      ensures Valid() && Model() == old(Model()).(psv := PS.ResetFailure(old(Model()).psv).psv)
      ensures rc == if old(Model()).psv.state == Failed then 0 else 164
    {
      var failed := state.IsFailureState();
      if !failed { return Spec.BD_ERR_VMSTATENOFAIL; }
      rc := state.ResetFailure();
    }

    // What bd_kqueue_thread does when the child of this machine ended.
    method ChildEnded(status: WaitStatus) returns (rc: int, queued: bool)
      requires Valid()
      modifies Repr()
      ensures Valid() && Spec.Handled(Model(), rc, queued) == Spec.ExitEvent(old(Model()), status)
      ensures Model().psv.state == Outcomes.ExitEventEnd(old(Model()).psv, status)
      ensures queued <==> Outcomes.ExitEventQueues(old(Model()).psv, status)
    {
      hide Outcomes.ExitEventEnd, Outcomes.ExitEventQueues;
      Outcomes.ExitEventEnds(Model(), status);
      state.sth.world.Record(Delivered(status));
      if status.Exited? {
        rc, queued := state.OnExit(status.code, PS.Accepting);
      } else {
        var _ := state.FailureState();
        rc, queued := 0, false;
      }
    }
  }

  // ---- all machines -----------------------------------------------------------------

  // bd_getvmbyname: index of the first machine of that name, |vms| if there is none.
  function Lookup(vms: seq<Spec.Vm>, name: string): (v: nat)
    ensures v <= |vms| && (v < |vms| ==> vms[v].config.name == name)
    ensures forall k :: 0 <= k < v ==> vms[k].config.name != name
  {
    if vms == [] || vms[0].config.name == name then 0 else 1 + Lookup(vms[1..], name)
  }

  class Director {
    const statelist: seq<WatchedVm>
    var rebootlist: seq<WatchedVm>
    var popped: Option<WatchedVm>  // what bd_restart_thread has in its hands

    ghost function VmReprs(): set<object> {
      set i, o | 0 <= i < |statelist| && o in statelist[i].Repr() :: o
    }

    // Machines share nothing, and their names tell them apart.
    ghost predicate Valid()
      reads VmReprs()
    {
      (forall i :: 0 <= i < |statelist| ==> statelist[i].Valid()) &&
      (forall i, j :: 0 <= i < j < |statelist| ==> statelist[i].Repr() !! statelist[j].Repr()) &&
      (forall i, j :: 0 <= i < j < |statelist| ==> statelist[i].config.name != statelist[j].config.name)
    }

    // The queue holds the machines of these numbers.
    ghost predicate Queues(ids: seq<nat>)
      reads this
    {
      |ids| == |rebootlist| &&
      forall k :: 0 <= k < |ids| ==> ids[k] < |statelist| && rebootlist[k] == statelist[ids[k]]
    }

    // The director is in this state of DirectorSpec.
    ghost predicate Represents(s: Spec.Sys)
      reads this, VmReprs()
    {
      Spec.WellFormed(s) && |s.vms| == |statelist| &&
      (forall i :: 0 <= i < |statelist| ==> statelist[i].Model() == s.vms[i]) &&
      Queues(s.queue) &&
      (s.pending.Some? <==> popped.Some?) &&
      (s.pending.Some? ==> popped.value == statelist[s.pending.value])
    }

    // bd_new with the machines of the configuration store
    constructor (machines: seq<WatchedVm>, ghost s: Spec.Sys)
      requires forall i :: 0 <= i < |machines| ==> machines[i].Valid()
      requires forall i, j :: 0 <= i < j < |machines| ==> machines[i].Repr() !! machines[j].Repr()
      requires forall i, j :: 0 <= i < j < |machines| ==> machines[i].config.name != machines[j].config.name
      requires |s.vms| == |machines| && s.queue == [] && s.pending.None?
      requires forall i :: 0 <= i < |machines| ==> machines[i].Model() == s.vms[i]
      ensures Valid() && Represents(s) && statelist == machines
    {
      statelist := machines;
      rebootlist := [];
      popped := None;
    }

    // bd_getvmbyname
    method GetVmByName(name: string, ghost s: Spec.Sys) returns (v: nat)
      requires Represents(s)
      ensures v == Lookup(s.vms, name)
    {
      v := 0;
      while v < |statelist|
        invariant v <= |statelist| && v <= Lookup(s.vms, name)
      {
        assert statelist[v].Model() == s.vms[v];
        if statelist[v].config.name == name { return; }
        v := v + 1;
      }
    }

    // bd_requestreboot, called by a machine that is in the list
    method RequestReboot(psv: ProcessState, ghost v: nat)
      requires Valid() && v < |statelist| && statelist[v].state == psv
      modifies this`rebootlist
      ensures rebootlist == old(rebootlist) + [statelist[v]]
    {
      var i := 0;
      while i < |statelist| && statelist[i].state != psv
        invariant 0 <= i <= v
      {
        i := i + 1;
      }
      assert i == v by {
        assert psv in statelist[i].Repr() && psv in statelist[v].Repr();
      }
      rebootlist := rebootlist + [statelist[i]];
    }

    // Machine v was handled; the others are as s says.
    lemma KeepsRepresenting(v: nat, s: Spec.Sys, h: Spec.Handled)
      requires Valid() && Spec.WellFormed(s) && |s.vms| == |statelist| && v < |statelist|
      requires statelist[v].Model() == h.vm
      requires forall i :: 0 <= i < |statelist| && i != v ==> statelist[i].Model() == s.vms[i]
      requires Queues(if h.queued then s.queue + [v] else s.queue)
      requires s.pending.Some? <==> popped.Some?
      requires s.pending.Some? ==> popped.value == statelist[s.pending.value]
      ensures Represents(Spec.Keep(s, v, h))
    {
    }

    // Machine v was handled and may have called the reboot manager.
    method Requested(v: nat, queued: bool, ghost s: Spec.Sys, ghost h: Spec.Handled)
      requires Valid() && Spec.WellFormed(s) && |s.vms| == |statelist| && v < |statelist|
      requires statelist[v].Model() == h.vm && h.queued == queued
      requires forall i :: 0 <= i < |statelist| && i != v ==> statelist[i].Model() == s.vms[i]
      requires Queues(s.queue)
      requires s.pending.Some? <==> popped.Some?
      requires s.pending.Some? ==> popped.value == statelist[s.pending.value]
      modifies this`rebootlist
      ensures Valid() && Represents(Spec.Keep(s, v, h))
    {
      if queued { RequestReboot(statelist[v].state, v); }
      KeepsRepresenting(v, s, h);
    }

    // bd_startvm
    method StartVm(name: string, ghost s: Spec.Sys) returns (rc: int)
      requires Valid() && Represents(s)
      modifies this`rebootlist, VmReprs()
      ensures Valid() && var v := Lookup(s.vms, name);
        Represents(Spec.Step(s, Spec.Start(v))) &&
        rc == if v < |s.vms| then Outcomes.StartCode(s.vms[v]) else 162
    {
      hide Outcomes.StartCode;
      var v := GetVmByName(name, s);
      if v < |statelist| { Outcomes.StartRequestEnds(s.vms[v]); }
      if v == |statelist| { return Spec.BD_ERR_UNKNOWNVMNAME; }
      rc := StartWatched(v, s);
    }

    method StartWatched(v: nat, ghost s: Spec.Sys) returns (rc: int)
      requires Valid() && Represents(s) && v < |statelist|
      modifies this`rebootlist, statelist[v].Repr()
      ensures Valid() && Represents(Spec.Keep(s, v, Spec.StartRequest(s.vms[v])))
      ensures rc == Spec.StartRequest(s.vms[v]).rc
    {
      var vm := statelist[v];
      var r, queued := vm.Start();
      rc := r;
      forall i | 0 <= i < |statelist| && i != v
        ensures statelist[i].Valid() && statelist[i].Model() == s.vms[i]
      {
        assert statelist[i].Repr() !! statelist[v].Repr();
      }
      Requested(v, queued, s, Spec.StartRequest(s.vms[v]));
    }

    // bd_stopvm
    method StopVm(name: string, ghost s: Spec.Sys) returns (rc: int)
      requires Valid() && Represents(s)
      modifies VmReprs()
      ensures Valid() && var v := Lookup(s.vms, name);
        Represents(Spec.Step(s, Spec.Stop(v))) &&
        rc == if v < |s.vms| && s.vms[v].psv.state == Running && Outcomes.StopGoes(s.vms[v].psv) then 0 else -1
    {
      hide Outcomes.StopGoes;
      var v := GetVmByName(name, s);
      if v < |statelist| { Outcomes.StopReturnsExactly(s.vms[v].psv, false); }
      if v == |statelist| { return -1; }
      rc := StopWatched(v, s);
    }

    method StopWatched(v: nat, ghost s: Spec.Sys) returns (rc: int)
      requires Valid() && Represents(s) && v < |statelist|
      modifies statelist[v].Repr()
      ensures Valid() && rc == PS.StopOrReboot(s.vms[v].psv, false).rc
      ensures Represents(Spec.Keep(s, v, Spec.Changed(s.vms[v], PS.StopOrReboot(s.vms[v].psv, false).psv)))
    {
      rc := statelist[v].Stop();
      forall i | 0 <= i < |statelist| && i != v
        ensures statelist[i].Valid() && statelist[i].Model() == s.vms[i]
      {
        assert statelist[i].Repr() !! statelist[v].Repr();
      }
      KeepsRepresenting(v, s, Spec.Changed(s.vms[v], PS.StopOrReboot(s.vms[v].psv, false).psv));
    }

    // bd_resetfailvm
    method ResetFailVm(name: string, ghost s: Spec.Sys) returns (rc: int)
      requires Valid() && Represents(s)
      modifies VmReprs()
      ensures Valid() && var v := Lookup(s.vms, name);
        Represents(Spec.Step(s, Spec.ResetFail(v))) &&
        rc == if v == |s.vms| then -1 else if s.vms[v].psv.state == Failed then 0 else 164
    {
      var v := GetVmByName(name, s);
      if v == |statelist| { return -1; }
      rc := ResetWatched(v, s);
    }

    method ResetWatched(v: nat, ghost s: Spec.Sys) returns (rc: int)
      requires Valid() && Represents(s) && v < |statelist|
      modifies statelist[v].Repr()
      ensures Valid() && rc == if s.vms[v].psv.state == Failed then 0 else 164
      ensures Represents(Spec.Keep(s, v, Spec.Changed(s.vms[v], PS.ResetFailure(s.vms[v].psv).psv)))
    {
      rc := statelist[v].ResetFail();
      forall i | 0 <= i < |statelist| && i != v
        ensures statelist[i].Valid() && statelist[i].Model() == s.vms[i]
      {
        assert statelist[i].Repr() !! statelist[v].Repr();
      }
      KeepsRepresenting(v, s, Spec.Changed(s.vms[v], PS.ResetFailure(s.vms[v].psv).psv));
    }

    // One EVFILT_PROC event of bd_kqueue_thread for a machine with a child left.
    method ProcessEvent(v: nat, status: WaitStatus, ghost s: Spec.Sys)
      requires Valid() && Represents(s) && v < |statelist| && Spec.Unseen(s.vms[v].psv.env.log) > 0
      modifies this`rebootlist, VmReprs()
      ensures Valid() && Represents(Spec.Step(s, Spec.Exit(v, status)))
    {
      EndWatched(v, status, s);
    }

    method EndWatched(v: nat, status: WaitStatus, ghost s: Spec.Sys)
      requires Valid() && Represents(s) && v < |statelist|
      modifies this`rebootlist, statelist[v].Repr()
      ensures Valid() && Represents(Spec.Keep(s, v, Spec.ExitEvent(s.vms[v], status)))
    {
      var _, queued := statelist[v].ChildEnded(status);
      forall i | 0 <= i < |statelist| && i != v
        ensures statelist[i].Valid() && statelist[i].Model() == s.vms[i]
      {
        assert statelist[i].Repr() !! statelist[v].Repr();
      }
      Requested(v, queued, s, Spec.ExitEvent(s.vms[v], status));
    }

    // bd_restart_thread takes a machine off the queue ...
    method TakeReboot(ghost s: Spec.Sys)
      requires Valid() && Represents(s) && popped.None?
      modifies this
      ensures Valid() && Represents(Spec.Step(s, Spec.Pop))
    {
      if rebootlist == [] { return; }
      popped := Some(rebootlist[0]);
      rebootlist := rebootlist[1..];
    }

    // ... and starts it by name.
    method StartTaken(ghost s: Spec.Sys) returns (rc: int)
      requires Valid() && Represents(s) && popped.Some?
      modifies this, VmReprs()
      ensures Valid() && Represents(Spec.Step(s, Spec.StartPopped))
      ensures rc == Outcomes.StartCode(s.vms[s.pending.value])
    {
      hide Outcomes.StartCode;
      var name := popped.value.config.name;
      ghost var t := s.(pending := None);
      NameFinds(s.pending.value, s);
      StartOfTaken(s);
      LetGo(s, t);
      rc := StartVm(name, t);
    }

    method LetGo(ghost s: Spec.Sys, ghost t: Spec.Sys)
      requires Valid() && Represents(s) && t == s.(pending := None)
      modifies this`popped
      ensures Valid() && Represents(t)
    {
      popped := None;
    }

    static lemma StartOfTaken(s: Spec.Sys)
      requires Spec.WellFormed(s) && s.pending.Some?
      ensures Spec.Step(s, Spec.StartPopped) == Spec.Step(s.(pending := None), Spec.Start(s.pending.value))
    {
    }

    lemma NameFinds(v: nat, s: Spec.Sys)
      requires Valid() && Represents(s) && v < |statelist|
      ensures Lookup(s.vms, statelist[v].config.name) == v
    {
      var k := Lookup(s.vms, statelist[v].config.name);
      assert statelist[v].Model() == s.vms[v];
      assert k == v by {
        assert statelist[k].Model() == s.vms[k];
      }
    }
  }
}
