/** The states of a virtual machine, the node and transition tables of
    process_state.c, and the journal of everything a virtual machine asks of the
    world outside the daemon: hook scripts, launches, signals and the clock.
  */
module Lifecycle {
  import opened Wrappers

  datatype VmState =
    | Init | StartNetwork | PrestartAfterRestart | StartStorage | StartAfterRestart
    | Running | Restarted | StopStorage | PrestopBeforeRestart | StopNetwork
    | Restarting | Stopped | RestartStopped | Failed | Stopping

  // ---- tables -----------------------------------------------------------

  // on_enter and on_exit are function pointers in the source; here they say
  // whether the pointer is set.
  datatype StateNode = StateNode(id: VmState, name: string, onEnter: bool, onExit: bool)

  // A missing `from` matches every current state.
  datatype Transition = Transition(from: Option<StateNode>, to: Option<StateNode>)

  function Node(id: VmState, name: string): StateNode { StateNode(id, name, true, false) }

  const PROCESS_STATES: seq<StateNode> := [
    StateNode(Init, "init", false, false),
    Node(StartNetwork, "start_network"),
    Node(PrestartAfterRestart, "prestart_after_restart"),
    Node(StartStorage, "start_storage"),
    Node(StartAfterRestart, "start_after_restart"),
    Node(Running, "running"),
    Node(Restarted, "restarted"),
    Node(StopStorage, "stop_storage"),
    Node(PrestopBeforeRestart, "prestop_before_restart"),
    Node(StopNetwork, "stop_network"),
    Node(Restarting, "restarting"),
    Node(Stopped, "stopped"),
    Node(RestartStopped, "restart_stopped"),
    Node(Failed, "failed"),
    Node(Stopping, "stopping")
  ]

  function Edge(from: nat, to: nat): Transition
    requires from < |PROCESS_STATES| && to < |PROCESS_STATES|
  {
    Transition(Some(PROCESS_STATES[from]), Some(PROCESS_STATES[to]))
  }

  const PROCESS_TRANSITIONS: seq<Transition> := [
    Edge(0, 1), Edge(1, 3), Edge(1, 9), Edge(3, 5), Edge(5, 14), Edge(14, 7),
    Edge(5, 8), Edge(7, 9), Edge(9, 11), Edge(8, 10), Edge(10, 12), Edge(12, 2),
    Edge(2, 4), Edge(4, 6), Edge(6, 5), Edge(11, 13),
    Transition(None, Some(PROCESS_STATES[7])),
    Edge(1, 9), Edge(11, 1), Edge(13, 0)
  ]

  predicate Matches(t: Transition, from: VmState, target: VmState) {
    (t.from.Some? ==> t.from.value.id == from) && t.to.Some? && t.to.value.id == target
  }

  // What the table allows, read off as a relation.
  predicate Allowed(from: VmState, to: VmState) {
    match to
    case Init => from == Failed
    case StartNetwork => from == Init || from == Stopped
    case StartStorage => from == StartNetwork
    case Running => from == StartStorage || from == Restarted
    case Stopping => from == Running
    case PrestopBeforeRestart => from == Running
    case StopStorage => true
    case StopNetwork => from == StopStorage || from == StartNetwork
    case Stopped => from == StopNetwork
    case Failed => from == Stopped
    case Restarting => from == PrestopBeforeRestart
    case RestartStopped => from == Restarting
    case PrestartAfterRestart => from == RestartStopped
    case StartAfterRestart => from == PrestartAfterRestart
    case Restarted => from == StartAfterRestart
  }

  function NodeOf(s: VmState): (n: StateNode)
    ensures n.id == s && n.onEnter == (s != Init) && !n.onExit
  {
    match s
    case Init => PROCESS_STATES[0]
    case StartNetwork => PROCESS_STATES[1]
    case PrestartAfterRestart => PROCESS_STATES[2]
    case StartStorage => PROCESS_STATES[3]
    case StartAfterRestart => PROCESS_STATES[4]
    case Running => PROCESS_STATES[5]
    case Restarted => PROCESS_STATES[6]
    case StopStorage => PROCESS_STATES[7]
    case PrestopBeforeRestart => PROCESS_STATES[8]
    case StopNetwork => PROCESS_STATES[9]
    case Restarting => PROCESS_STATES[10]
    case Stopped => PROCESS_STATES[11]
    case RestartStopped => PROCESS_STATES[12]
    case Failed => PROCESS_STATES[13]
    case Stopping => PROCESS_STATES[14]
  }

  // Index in PROCESS_TRANSITIONS of an entry for an allowed step.
  function EntryFor(from: VmState, to: VmState): (k: nat)
    requires Allowed(from, to)
    ensures k < |PROCESS_TRANSITIONS| && Matches(PROCESS_TRANSITIONS[k], from, to)
  {
    match to
    case Init => 19
    case StartNetwork => if from == Init then 0 else 18
    case StartStorage => 1
    case Running => if from == StartStorage then 3 else 14
    case Stopping => 4
    case PrestopBeforeRestart => 6
    case StopStorage => 16
    case StopNetwork => if from == StopStorage then 7 else 2
    case Stopped => 8
    case Failed => 15
    case Restarting => 9
    case RestartStopped => 10
    case PrestartAfterRestart => 11
    case StartAfterRestart => 12
    case Restarted => 13
  }

  lemma EarlyEntryIsAllowed(k: nat, from: VmState, to: VmState)
    requires k < 10 && Matches(PROCESS_TRANSITIONS[k], from, to)
    ensures Allowed(from, to) && PROCESS_TRANSITIONS[k].to == Some(NodeOf(to))
  {
    if k < 5 {
      assert k == 0 || k == 1 || k == 2 || k == 3 || k == 4;
    } else {
      assert k == 5 || k == 6 || k == 7 || k == 8 || k == 9;
    }
  }

  lemma LateEntryIsAllowed(k: nat, from: VmState, to: VmState)
    requires 10 <= k < |PROCESS_TRANSITIONS| && Matches(PROCESS_TRANSITIONS[k], from, to)
    ensures Allowed(from, to) && PROCESS_TRANSITIONS[k].to == Some(NodeOf(to))
  {
    if k < 15 {
      assert k == 10 || k == 11 || k == 12 || k == 13 || k == 14;
    } else {
      assert k == 15 || k == 16 || k == 17 || k == 18 || k == 19;
    }
  }

  /** The transition table and the relation Allowed say the same thing, and every
      entry that matches leads to the node of the requested state. */
  lemma TableIsAllowed(from: VmState, to: VmState)
    ensures (exists k :: 0 <= k < |PROCESS_TRANSITIONS| && Matches(PROCESS_TRANSITIONS[k], from, to))
            <==> Allowed(from, to)
    ensures forall k :: 0 <= k < |PROCESS_TRANSITIONS| && Matches(PROCESS_TRANSITIONS[k], from, to) ==>
              PROCESS_TRANSITIONS[k].to == Some(NodeOf(to))
  {
    forall k | 0 <= k < |PROCESS_TRANSITIONS| && Matches(PROCESS_TRANSITIONS[k], from, to)
      ensures Allowed(from, to) && PROCESS_TRANSITIONS[k].to == Some(NodeOf(to))
    {
      if k < 10 { EarlyEntryIsAllowed(k, from, to); } else { LateEntryIsAllowed(k, from, to); }
    }
    if Allowed(from, to) {
      var k := EntryFor(from, to);
      assert Matches(PROCESS_TRANSITIONS[k], from, to);
    }
  }

  // ---- the outside world --------------------------------------------------

  datatype WaitStatus = Exited(code: nat) | Signaled(signal: nat) | JobStopped

  // What bd_startvm learns about a child it has just launched: it is gone, it
  // could be reaped at once, or it lives and was registered for exit events
  // (with the result of that registration).
  datatype Probe = Vanished | Reaped(status: WaitStatus) | Attached(rc: int)

  // Everything the world may answer to one question, whichever question it is,
  // and how long it took to answer.
  datatype Answer = Answer(
    elapsed: nat,     // seconds until the answer arrives
    hook: int,        // exit code of a hook script
    launched: bool,   // whether fork succeeded
    pid: nat,         // the process id of the new child
    generate: int,    // result of the configuration generator
    term: int,        // result of kill(pid, SIGTERM)
    probe: Probe)

  datatype Action =
    | Entered(target: VmState, rc: int)  // on_enter of target was run and returned rc
    | Left(source: VmState, rc: int)     // on_exit of source was run and returned rc
    | Counted                            // the restart budget was looked at
    | Stamped                            // a start attempt was recorded
    | Generated(rc: int)
    | Launched(ok: bool, pid: nat)
    | Terminated(rc: int)
    | Probed(probe: Probe)
    | Delivered(status: WaitStatus)      // the exit-event thread saw the child end
    | RebootAccepted                     // the reboot manager took a request

  datatype Event = Event(at: int, action: Action)

  // The answer to the n-th question is oracle(n); the journal holds one event a
  // question, so |log| is the number of the next one. The clock never goes back.
  datatype Env = Env(oracle: nat -> Answer, log: seq<Event>, now: int)

  function Ask(e: Env): Answer { e.oracle(|e.log|) }

  function Note(e: Env, a: Action): Env {
    var t := e.now + Ask(e).elapsed;
    Env(e.oracle, e.log + [Event(t, a)], t)
  }
}
