/** The state handler of libstate: a current node, a transition table, and one method
    that moves the one along the other.
  */
module StateHandling {
  import opened Wrappers
  import opened Lifecycle
  import opened ProcessSpec

  // What the handler and its owner ask of the world and what was answered.
  class World {
    const oracle: nat -> Answer
    var log: seq<Event>
    var now: int

    ghost function Model(): Env
      reads this
    {
      Env(oracle, log, now)
    }

    constructor (oracle: nat -> Answer, start: int)
      ensures Model() == Env(oracle, [], start)
    {
      this.oracle := oracle;
      log := [];
      now := start;
    }

    // The answer to the next question.
    function Next(): (a: Answer)
      reads this
      ensures a == Ask(Model())
    {
      oracle(|log|)
    }

    method Record(a: Action)
      modifies this
      ensures Model() == Note(old(Model()), a)
    {
      now := now + Next().elapsed;
      log := log + [Event(now, a)];
    }
  }

  // The first entry of the table that leads from a state to a target.
  function FirstMatch(vec: seq<Transition>, from: VmState, target: VmState): (t: Option<Transition>)
    ensures t.Some? ==> t.value.to.Some? && t.value.to.value.id == target
  {
    if vec == [] then None
    else if Matches(vec[0], from, target) then Some(vec[0])
    else FirstMatch(vec[1..], from, target)
  }

  // Entry k is the first that leads from a state to a target.
  ghost predicate IsFirst(vec: seq<Transition>, from: VmState, target: VmState, k: nat) {
    k < |vec| && Matches(vec[k], from, target) && forall j :: 0 <= j < k ==> !Matches(vec[j], from, target)
  }

  lemma {:induction false} FirstMatchFinds(vec: seq<Transition>, from: VmState, target: VmState)
    ensures match FirstMatch(vec, from, target)
      case None => forall k :: 0 <= k < |vec| ==> !Matches(vec[k], from, target)
      case Some(t) => exists k: nat :: IsFirst(vec, from, target, k) && t == vec[k]
    decreases |vec|
  {
    hide Matches;
    if vec != [] {
      if Matches(vec[0], from, target) {
        assert IsFirst(vec, from, target, 0);
      } else {
        FirstMatchFinds(vec[1..], from, target);
        match FirstMatch(vec[1..], from, target)
        case None =>
          forall k | 0 <= k < |vec| ensures !Matches(vec[k], from, target) {
            if k > 0 { assert vec[k] == vec[1..][k - 1]; }
          }
        case Some(t) =>
          var k: nat :| IsFirst(vec[1..], from, target, k) && t == vec[1..][k];
          FirstBehind(vec, from, target, k);
      }
    }
  }

  lemma FirstBehind(vec: seq<Transition>, from: VmState, target: VmState, k: nat)
    requires vec != [] && !Matches(vec[0], from, target) && IsFirst(vec[1..], from, target, k)
    ensures IsFirst(vec, from, target, k + 1) && vec[1..][k] == vec[k + 1]
  {
    hide Matches;
    forall j | 0 <= j < k + 1 ensures !Matches(vec[j], from, target) {
      if j > 0 { assert vec[j] == vec[1..][j - 1]; }
    }
  }

  datatype Transited = Transited(current: StateNode, env: Env, rc: int)

  /** sth_transitionto on any table: without an entry nothing happens; otherwise
      on_exit of the current node and then on_enter of the target have to return 0. */
  function Transit(vec: seq<Transition>, current: StateNode, env: Env, target: VmState): Transited {
    match FirstMatch(vec, current.id, target)
    case None => Transited(current, env, -1)
    case Some(t) =>
      var rc := Ask(env).hook;
      var left := if current.onExit then Note(env, Left(current.id, rc)) else env;
      if current.onExit && rc != 0 then Transited(current, left, -1)
      else EnterNode(t.to.value, current, left)
  }

  function EnterNode(to: StateNode, current: StateNode, env: Env): Transited {
    var rc := if to.onEnter then Ask(env).hook else 0;
    var entered := Note(env, Entered(to.id, rc));
    if rc != 0 then Transited(current, entered, -1) else Transited(to, entered, 0)
  }

  /** A transition on any table: it moves to the node of the first matching entry if and only if
      there is one, the on_exit of the current node, if it has one, and then the on_enter of the
      target, if it has one, return 0; each of them is asked once and the second one only after
      the first has returned 0. */
  lemma TransitExactly(vec: seq<Transition>, current: StateNode, env: Env, target: VmState)
    ensures var h := Transit(vec, current, env, target);
      match FirstMatch(vec, current.id, target)
      case None => h == Transited(current, env, -1)
      case Some(t) =>
        var first := env.oracle(|env.log|).hook;
        var second := env.oracle(|env.log| + if current.onExit then 1 else 0).hook;
        var left := current.onExit ==> first == 0;
        var entered := left && (t.to.value.onEnter ==> second == 0);
        h.rc == (if entered then 0 else -1) && h.current == (if entered then t.to.value else current) &&
        Actions(h.env.log) == Actions(env.log) +
          (if current.onExit then [Left(current.id, first)] else []) +
          (if left then [Entered(target, if t.to.value.onEnter then second else 0)] else [])
  {
  }

  ghost function Actions(log: seq<Event>): (r: seq<Action>)
    ensures |r| == |log| && forall i :: 0 <= i < |log| ==> r[i] == log[i].action
  {
    seq(|log|, i requires 0 <= i < |log| => log[i].action)
  }

  /** Over the tables of process_state.c the handler does what Enter says, and its
      node is always the one of its state. */
  lemma TransitIsEnter(p: Psv, target: VmState)
    ensures var h := Transit(PROCESS_TRANSITIONS, NodeOf(p.state), p.env, target);
      var m := Enter(p, target);
      h.current == NodeOf(m.psv.state) && h.env == m.psv.env && m.psv.pid == p.pid &&
      h.rc == if m.ok then 0 else -1
  {
    TableIsAllowed(p.state, target);
    FirstMatchFinds(PROCESS_TRANSITIONS, p.state, target);
    EnterOfTable(p, target, FirstMatch(PROCESS_TRANSITIONS, p.state, target));
  }

  lemma EnterOfTable(p: Psv, target: VmState, t: Option<Transition>)
    requires t == FirstMatch(PROCESS_TRANSITIONS, NodeOf(p.state).id, target)
    requires t.Some? <==> Allowed(p.state, target)
    requires t.Some? ==> t.value.to == Some(NodeOf(target))
    ensures var h := Transit(PROCESS_TRANSITIONS, NodeOf(p.state), p.env, target);
      var m := Enter(p, target);
      h.current == NodeOf(m.psv.state) && h.env == m.psv.env && m.psv.pid == p.pid &&
      h.rc == if m.ok then 0 else -1
  {
  }

  // sth_lookupstate
  method LookupState(vec: seq<StateNode>, id: VmState) returns (i: int)
    ensures i == -1 ==> forall k :: 0 <= k < |vec| ==> vec[k].id != id
    ensures i != -1 ==> 0 <= i < |vec| && vec[i].id == id && forall k :: 0 <= k < i ==> vec[k].id != id
  {
    i := 0;
    while i < |vec|
      invariant 0 <= i <= |vec| && forall k :: 0 <= k < i ==> vec[k].id != id
    {
      if vec[i].id == id { return; }
      i := i + 1;
    }
    i := -1;
  }

  class StateHandler {
    const vec: seq<Transition>
    const world: World
    var current: StateNode

    constructor (vec: seq<Transition>, current: StateNode, world: World)
      ensures this.vec == vec && this.current == current && this.world == world
    {
      this.vec := vec;
      this.current := current;
      this.world := world;
    }

    // sth_findtransition
    method FindTransition(target: VmState) returns (t: Option<Transition>)
      ensures t == FirstMatch(vec, current.id, target)
    {
      var counter := 0;
      while counter < |vec|
        invariant 0 <= counter <= |vec|
        invariant FirstMatch(vec, current.id, target) == FirstMatch(vec[counter..], current.id, target)
      {
        var transition := vec[counter];
        counter := counter + 1;
        if transition.from.Some? && transition.from.value.id != current.id { continue; }
        if transition.to.Some? && transition.to.value.id == target { return Some(transition); }
      }
      t := None;
    }

    // sth_transitionto
    method TransitionTo(target: VmState) returns (rc: int)
      modifies this, world
      ensures Transited(current, world.Model(), rc) ==
              Transit(vec, old(current), old(world.Model()), target)
    {
      var st := FindTransition(target);
      if st.None? { return -1; }
      var to := st.value.to.value;
      if current.onExit {
        rc := world.Next().hook;
        world.Record(Left(current.id, rc));
        if rc != 0 { return -1; }
      }
      rc := if to.onEnter then world.Next().hook else 0;
      world.Record(Entered(to.id, rc));
      if rc != 0 { return -1; }
      current := to;
      return 0;
    }
  }
}
