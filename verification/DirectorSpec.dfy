/** What the director does with all its virtual machines: the start requests with
    their restart budget, stops, resets, delivered exits and the restart thread,
    one atomic step each.
  */
module DirectorSpec {
  import opened Wrappers
  import opened Lifecycle
  import opened ProcessSpec

  const UINT_MAX := 0xFFFF_FFFF

  // The part of bhyve_configuration the director looks at.
  datatype Config = Config(name: string, maxrestart: nat, maxrestarttime: int)

  // bhyve_watched_vm: the queue of recorded start attempts is pruned while
  // it is counted.
  datatype Vm = Vm(config: Config, psv: Psv, startups: seq<int>)

  const BD_ERR_VMSTATEISFAIL := 169
  const BD_ERR_VMSTARTFAILED := 168
  const BD_ERR_KEVENTREGFAIL := 167
  const BD_ERR_TRANSITCHFAIL := 166
  const BD_ERR_VMSTARTDIEDIM := 165
  const BD_ERR_VMSTATENOFAIL := 164
  const BD_ERR_VMCONFGENFAIL := 163
  const BD_ERR_UNKNOWNVMNAME := 162

  // The queue without the leading entries before the deadline.
  function Prune(startups: seq<int>, deadline: int): seq<int> {
    if startups != [] && startups[0] < deadline then Prune(startups[1..], deadline) else startups
  }

  // bwv_countrestarts_since counts in an unsigned int.
  function CountSince(startups: seq<int>, deadline: int): nat {
    |Prune(startups, deadline)| % (UINT_MAX + 1)
  }

  // bwv_is_countfail: reads the clock, prunes and compares.
  function Counting(vm: Vm): Vm {
    var q := Noted(vm.psv, Counted);
    vm.(psv := q, startups := Prune(vm.startups, q.env.now - vm.config.maxrestarttime))
  }

  predicate CountFail(vm: Vm) {
    CountSince(vm.startups, Counting(vm).psv.env.now - vm.config.maxrestarttime) > vm.config.maxrestart
  }

  // bwv_timestamp reads the clock again.
  function Stamping(vm: Vm): Vm {
    var q := Noted(vm.psv, Stamped);
    vm.(psv := q, startups := vm.startups + [q.env.now])
  }

  // Result of a director command on one machine.
  datatype Handled = Handled(vm: Vm, rc: int, queued: bool)

  // bd_startvm
  function StartRequest(vm: Vm): Handled {
    var counted := Counting(vm);
    if CountFail(vm) then Handled(Failing(counted), BD_ERR_VMSTATEISFAIL, false)
    else if counted.psv.state == Failed then Handled(counted, BD_ERR_VMSTATEISFAIL, false)
    else Attempt(Stamping(counted))
  }

  function Failing(vm: Vm): Vm { vm.(psv := FailureState(vm.psv).psv) }

  // Generating the configuration, psv_startvm and a look at the child.
  function Attempt(vm: Vm): Handled {
    var rc := Ask(vm.psv.env).generate;
    var g := vm.(psv := Noted(vm.psv, Generated(rc)));
    if rc != 0 then Handled(Failing(g), BD_ERR_VMCONFGENFAIL, false)
    else
      var d := StartVm(g.psv);
      var started := g.(psv := d.psv);
      if d.rc == 0 then LookAtChild(started)
      else if d.rc == PSV_ERR_TRANSITIONSFAIL then Handled(started, BD_ERR_TRANSITCHFAIL, false)
      else Handled(started, BD_ERR_VMSTARTFAILED, false)
  }

  function ExitCode(status: WaitStatus): nat {
    if status.Exited? then status.code else 0  // WEXITSTATUS of a signalled child
  }

  function LookAtChild(vm: Vm): Handled {
    var probe := Ask(vm.psv.env).probe;
    var seen := vm.(psv := Noted(vm.psv, Probed(probe)));
    match probe
    case Vanished =>
      var d := OnExit(seen.psv, 4, Accepting);
      Handled(seen.(psv := d.psv), 0, d.queued)
    case Reaped(status) =>
      if status.JobStopped? then Handled(seen, 0, false)
      else
        var d := OnExit(seen.psv, ExitCode(status), Accepting);
        var after := if d.rc != 0 then FailureState(d.psv).psv else d.psv;
        Handled(seen.(psv := after), BD_ERR_VMSTARTDIEDIM, d.queued)
    case Attached(rc) =>
      Handled(seen, if rc < 0 then BD_ERR_KEVENTREGFAIL else 0, false)
  }

  // One EVFILT_PROC event of bd_kqueue_thread.
  function ExitEvent(vm: Vm, status: WaitStatus): Handled {
    var seen := Noted(vm.psv, Delivered(status));
    if status.Exited? then
      var d := OnExit(seen, status.code, Accepting);
      Handled(vm.(psv := d.psv), d.rc, d.queued)
    else
      Handled(vm.(psv := FailureState(seen).psv), 0, false)
  }

  // ---- children that are alive or whose end nobody has seen ----------------

  // An exit seen right after the launch counts as seen.
  function Weight(a: Action): int {
    match a
    case Launched(ok, _) => if ok then 1 else 0
    case Probed(Vanished) => -1
    case Probed(Reaped(status)) => if status.JobStopped? then 0 else -1
    case Delivered(_) => -1
    case _ => 0
  }

  // Children launched and not yet seen to end.
  function Unseen(log: seq<Event>): int {
    if log == [] then 0 else Unseen(log[..|log| - 1]) + Weight(log[|log| - 1].action)
  }

  // ---- the whole director -----------------------------------------------------

  // `queue` is rebootlist; `pending` is the machine the restart thread has taken
  // off it and not yet started. The last two fields are history.
  datatype Sys = Sys(vms: seq<Vm>, queue: seq<nat>, pending: Option<nat>,
                     accepted: seq<nat>, popped: seq<nat>)

  predicate WellFormed(s: Sys) {
    (forall k :: 0 <= k < |s.queue| ==> s.queue[k] < |s.vms|) &&
    (s.pending.Some? ==> s.pending.value < |s.vms|)
  }

  // Steps of the client, of the exit-event thread and of the restart thread.
  datatype Command =
    | Start(v: nat) | Stop(v: nat) | ResetFail(v: nat)
    | Reboot(v: nat)                    // psv_rebootvm, not reachable by a client command
    | Exit(v: nat, status: WaitStatus)
    | Pop | StartPopped

  function Keep(s: Sys, v: nat, h: Handled): Sys
    requires v < |s.vms|
  {
    var t := s.(vms := s.vms[v := h.vm]);
    if h.queued then t.(queue := t.queue + [v], accepted := t.accepted + [v]) else t
  }

  function Changed(vm: Vm, psv: Psv): Handled { Handled(vm.(psv := psv), 0, false) }

  // One step. A command for a machine that does not exist, or a thread step that
  // has nothing to do, changes nothing; a child can only be seen to end if there is one.
  function Step(s: Sys, c: Command): (t: Sys)
    requires WellFormed(s)
    ensures WellFormed(t) && |t.vms| == |s.vms|
  {
    match c
    case Start(v) => if v < |s.vms| then Keep(s, v, StartRequest(s.vms[v])) else s
    case Stop(v) =>
      if v < |s.vms| then Keep(s, v, Changed(s.vms[v], StopOrReboot(s.vms[v].psv, false).psv)) else s
    case Reboot(v) =>
      if v < |s.vms| then Keep(s, v, Changed(s.vms[v], StopOrReboot(s.vms[v].psv, true).psv)) else s
    case ResetFail(v) =>
      if v < |s.vms| then Keep(s, v, Changed(s.vms[v], ResetFailure(s.vms[v].psv).psv)) else s
    case Exit(v, status) =>
      if v < |s.vms| && Unseen(s.vms[v].psv.env.log) > 0
      then Keep(s, v, ExitEvent(s.vms[v], status)) else s
    case Pop =>
      if s.pending.None? && s.queue != []
      then s.(queue := s.queue[1..], pending := Some(s.queue[0]), popped := s.popped + [s.queue[0]])
      else s
    case StartPopped =>
      if s.pending.Some?
      then Keep(s.(pending := None), s.pending.value, StartRequest(s.vms[s.pending.value])) else s
  }

  // A director as bd_new leaves it.
  predicate Fresh(s: Sys) {
    s.queue == [] && s.pending.None? && s.accepted == [] && s.popped == [] &&
    forall v :: 0 <= v < |s.vms| ==> FreshVm(s.vms[v])
  }

  predicate FreshVm(vm: Vm) {
    vm.psv.state == Init && vm.psv.pid == 0 && vm.psv.env.log == [] && vm.startups == []
  }
}
