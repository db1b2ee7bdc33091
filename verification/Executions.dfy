/** Executions of the director: the states it goes through under a sequence of commands.
    The results about whole runs hold in every state of every execution.
  */
module Executions {
  import opened DirectorSpec

  // states[k] is the director after k commands.
  datatype Execution = Execution(states: seq<Sys>, cs: seq<Command>)

  ghost predicate Follows(x: Execution, k: nat)
    requires k < |x.cs| && |x.states| == |x.cs| + 1 && WellFormed(x.states[k])
  {
    x.states[k + 1] == Step(x.states[k], x.cs[k])
  }

  ghost predicate Possible(x: Execution) {
    |x.states| == |x.cs| + 1 &&
    (forall k :: 0 <= k < |x.states| ==> WellFormed(x.states[k]) && |x.states[k].vms| == |x.states[0].vms|) &&
    forall k {:trigger Follows(x, k)} :: 0 <= k < |x.cs| ==> Follows(x, k)
  }

  // Machine v after i commands.
  ghost predicate InRange(x: Execution, i: nat, v: nat) {
    Possible(x) && i <= |x.cs| && v < |x.states[0].vms|
  }

  ghost function At(x: Execution, i: nat, v: nat): Vm
    requires InRange(x, i, v)
  {
    x.states[i].vms[v]
  }

  /** From every well-formed state every sequence of commands can be executed. */
  lemma {:induction false} ExecutionExists(s: Sys, cs: seq<Command>) returns (x: Execution)
    requires WellFormed(s)
    ensures Possible(x) && x.states[0] == s && x.cs == cs
    decreases |cs|
  {
    if cs == [] {
      x := Execution([s], []);
    } else {
      var n := |cs| - 1;
      var y := ExecutionExists(s, cs[..n]);
      x := Execution(y.states + [Step(y.states[n], cs[n])], cs);
      forall k | 0 <= k < |cs| ensures Follows(x, k) {
        if k < n { assert Follows(y, k) && y.cs[k] == cs[k]; }
      }
    }
  }
}
