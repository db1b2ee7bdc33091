/** The identifier keeper of libconfig on values: a sorted list of identifiers that are
    held, a next identifier, and a search for gaps when there is no next one. It is
    proved to be a set of free identifiers.
  */
module IdentSpec {
  import opened Wrappers

  // ident_min, ident_max, ident_next and the identifiers of the reservation list
  datatype Keeper = Keeper(min: nat, max: nat, next: nat, held: seq<nat>)

  // ---- operations ---------------------------------------------------------------

  // The gap search of ik_next_ident_locked; there is no test against ident_max.
  function Gap(held: seq<nat>, start: nat): Option<nat> {
    if held == [] then None
    else if held[0] != start then Some(start)
    else Gap(held[1..], start + 1)
  }

  function NextIdent(k: Keeper): Option<nat> {
    if k.next <= k.max then Some(k.next) else Gap(k.held, k.min)
  }

  function Bumped(k: Keeper): Keeper { if k.next <= k.max then k.(next := k.next + 1) else k }

  // ik_insert_reservation_locked
  function Inserted(held: seq<nat>, ident: nat): seq<nat> {
    if held == [] || held[0] > ident then [ident] + held else [held[0]] + Inserted(held[1..], ident)
  }

  function Removed(held: seq<nat>, ident: nat): seq<nat> {
    if held == [] then []
    else if held[0] == ident then held[1..]
    else [held[0]] + Removed(held[1..], ident)
  }

  function Reserve(k: Keeper): Keeper {
    match NextIdent(k)
    case None => k
    case Some(ident) => Bumped(k).(held := Inserted(k.held, ident))
  }

  function Dispose(k: Keeper, ident: nat): Keeper {
    k.(held := Removed(k.held, ident), next := if k.next - 1 == ident then ident else k.next)
  }

  // A valid reservation stays; an invalid one is taken off the list and moved to
  // another identifier, or dropped.
  function Validate(k: Keeper, ident: nat, valid: bool): Keeper {
    if valid then k else Reserve(k.(held := Removed(k.held, ident)))
  }

  // The identifier of the reservation after Validate, None when it was dropped.
  function Revised(k: Keeper, ident: nat, valid: bool): Option<nat> {
    if valid then Some(ident) else NextIdent(k.(held := Removed(k.held, ident)))
  }

  // ---- invariants ------------------------------------------------------------------

  predicate Ascending(held: seq<nat>) { forall i, j :: 0 <= i < j < |held| ==> held[i] < held[j] }

  predicate Ordered(k: Keeper) {
    k.min <= k.next <= k.max + 1 && Ascending(k.held) &&
    forall i :: 0 <= i < |k.held| ==> k.min <= k.held[i] <= k.max && k.held[i] < k.next
  }

  // What lets the gap search stop at the last reservation.
  predicate Exact(k: Keeper) { Ordered(k) && (k.next == k.max + 1 ==> k.max in k.held) }

  function Free(k: Keeper): set<nat> { set i: nat | k.min <= i <= k.max && i !in k.held }

  // The list is start, start + 1, ...
  predicate Contiguous(held: seq<nat>, start: nat) {
    held == [] || (held[0] == start && Contiguous(held[1..], start + 1))
  }

  lemma {:induction false} ContiguousHolds(held: seq<nat>, start: nat)
    requires Contiguous(held, start)
    ensures forall x: nat :: x in held <==> start <= x < start + |held|
    decreases |held|
  {
    if held != [] {
      ContiguousHolds(held[1..], start + 1);
      assert held == [held[0]] + held[1..];
    }
  }

  // ---- the list ---------------------------------------------------------------------

  lemma Tail(held: seq<nat>)
    requires Ascending(held) && held != []
    ensures Ascending(held[1..]) && forall x :: x in held[1..] ==> held[0] < x
    ensures forall x :: x in held <==> x == held[0] || x in held[1..]
  {
    assert held == [held[0]] + held[1..];
  }

  lemma Head(ident: nat, rest: seq<nat>)
    requires Ascending(rest) && forall x :: x in rest ==> ident < x
    ensures Ascending([ident] + rest) && forall x :: x in [ident] + rest <==> x == ident || x in rest
  {
    var all := [ident] + rest;
    forall i, j | 0 <= i < j < |all| ensures all[i] < all[j] {
      assert all[j] == rest[j - 1] && rest[j - 1] in rest;
    }
  }

  lemma {:induction false} InsertedHolds(held: seq<nat>, ident: nat)
    requires Ascending(held) && ident !in held
    ensures Ascending(Inserted(held, ident)) && |Inserted(held, ident)| == |held| + 1
    ensures forall x :: x in Inserted(held, ident) <==> x == ident || x in held
    decreases |held|
  {
    if held != [] { Tail(held); }
    if held == [] || held[0] > ident {
      Head(ident, held);
    } else {
      InsertedHolds(held[1..], ident);
      Head(held[0], Inserted(held[1..], ident));
    }
  }

  lemma {:induction false} RemovedHolds(held: seq<nat>, ident: nat)
    requires Ascending(held) && ident in held
    ensures Ascending(Removed(held, ident)) && |Removed(held, ident)| == |held| - 1
    ensures forall x :: x in Removed(held, ident) <==> x != ident && x in held
    decreases |held|
  {
    Tail(held);
    if held[0] != ident {
      RemovedHolds(held[1..], ident);
      Head(held[0], Removed(held[1..], ident));
    }
  }

  // Where a gap is found: the least identifier missing below the last entry.
  ghost predicate IsGap(g: nat, held: seq<nat>, start: nat) {
    start <= g && g !in held && (exists x :: x in held && g < x) &&
    forall x: nat :: start <= x < g ==> x in held
  }

  lemma {:induction false} GapHolds(held: seq<nat>, start: nat)
    requires Ascending(held) && forall x :: x in held ==> start <= x
    ensures Gap(held, start) == None <==> Contiguous(held, start)
    ensures Gap(held, start).Some? ==> IsGap(Gap(held, start).value, held, start)
    decreases |held|
  {
    if held != [] {
      Tail(held);
      if held[0] == start {
        GapHolds(held[1..], start + 1);
      } else {
        assert held[0] in held && start < held[0];
      }
    }
  }

  // ---- one reservation ------------------------------------------------------------------

  lemma MembersFit(k: Keeper)
    requires Ordered(k)
    ensures forall x :: x in k.held ==> k.min <= x <= k.max && x < k.next
  {
  }

  /** In every ordered state a reservation gives an identifier that was free, and the
      list stays ordered; it fails exactly when there is no next identifier and the
      list has no gap before its last entry. */
  lemma ReserveKeepsOrder(k: Keeper)
    requires Ordered(k)
    ensures Ordered(Reserve(k))
    ensures NextIdent(k) == None <==> k.next == k.max + 1 && Contiguous(k.held, k.min)
    ensures NextIdent(k).Some? ==>
      var ident := NextIdent(k).value;
      ident in Free(k) && forall x :: x in Reserve(k).held <==> x == ident || x in k.held
    ensures NextIdent(k).Some? && k.next > k.max ==> IsGap(NextIdent(k).value, k.held, k.min)
  {
    MembersFit(k);
    GapHolds(k.held, k.min);
    if NextIdent(k).Some? {
      InsertedHolds(k.held, NextIdent(k).value);
      var after := Reserve(k).held;
      forall i | 0 <= i < |after| ensures k.min <= after[i] <= k.max && after[i] < Reserve(k).next {
        assert after[i] in after;
      }
    }
  }

  /** ik_reserve on the set of free identifiers: it fails exactly when the set is
      empty and otherwise takes one element out of it, the least one once the
      identifiers have been handed out. */
  lemma ReserveRefines(k: Keeper)
    requires Exact(k)
    ensures Exact(Reserve(k))
    ensures NextIdent(k) == None <==> Free(k) == {}
    ensures NextIdent(k) == None ==> Reserve(k) == k
    ensures NextIdent(k).Some? ==>
      NextIdent(k).value in Free(k) && Free(Reserve(k)) == Free(k) - {NextIdent(k).value}
    ensures NextIdent(k).Some? && k.next > k.max ==> forall x :: x in Free(k) ==> NextIdent(k).value <= x
  {
    ReserveKeepsOrder(k);
    if Contiguous(k.held, k.min) { ContiguousHolds(k.held, k.min); }
  }

  lemma DisposeKeepsOrder(k: Keeper, ident: nat)
    requires Ordered(k) && ident in k.held
    ensures Ordered(Dispose(k, ident))
    ensures forall x :: x in Dispose(k, ident).held <==> x != ident && x in k.held
  {
    RemovedHolds(k.held, ident);
    var after := Removed(k.held, ident);
    forall i | 0 <= i < |after|
      ensures k.min <= after[i] <= k.max && after[i] < Dispose(k, ident).next
    {
      assert after[i] in after;
    }
  }

  /** ik_dispose puts exactly its identifier back. */
  lemma DisposeRefines(k: Keeper, ident: nat)
    requires Exact(k) && ident in k.held
    ensures Exact(Dispose(k, ident)) && Free(Dispose(k, ident)) == Free(k) + {ident}
  {
    DisposeKeepsOrder(k, ident);
  }

  /** What comes next after ik_dispose: the identifier itself when it was the last one handed
      out, otherwise the next one, and the least free one once all were handed out. */
  lemma NextAfterDispose(k: Keeper, ident: nat)
    requires Exact(k) && ident in k.held
    ensures var next := NextIdent(Dispose(k, ident));
      next.Some? &&
      if ident + 1 == k.next then next.value == ident
      else if k.next <= k.max then next.value == k.next
      else next.value <= ident && forall x: nat :: k.min <= x < next.value ==> x in k.held
  {
    MembersFit(k);
    DisposeRefines(k, ident);
    DisposeKeepsOrder(k, ident);
    var d := Dispose(k, ident);
    ReserveRefines(d);
    assert ident in Free(d);
    if NextIdent(d).Some? {
      forall x: nat | k.min <= x < NextIdent(d).value && k.next > k.max && ident + 1 != k.next ensures x in k.held {
        assert x !in Free(d);
      }
    }
  }

  lemma WithoutIsOrdered(k: Keeper, ident: nat)
    requires Ordered(k) && ident in k.held
    ensures var u := k.(held := Removed(k.held, ident));
      Ordered(u) && forall x :: x in u.held <==> x != ident && x in k.held
  {
    RemovedHolds(k.held, ident);
    var after := Removed(k.held, ident);
    forall i | 0 <= i < |after| ensures k.min <= after[i] <= k.max && after[i] < k.next {
      assert after[i] in after;
    }
  }

  /** ik_validate_reservation keeps the list ordered, but it may leave the state in
      which reservations can fail too early: from a good state exactly when the
      last identifier turns out to be invalid after all were handed out. */
  lemma ValidateExactly(k: Keeper, ident: nat, valid: bool)
    requires Exact(k) && ident in k.held
    ensures Ordered(Validate(k, ident, valid))
    ensures Exact(Validate(k, ident, valid)) <==> valid || k.next <= k.max || ident != k.max
  {
    if !valid {
      var u := k.(held := Removed(k.held, ident));
      WithoutIsOrdered(k, ident);
      ReserveKeepsOrder(u);
    }
  }

  /** An invalid reservation is handed the same identifier again exactly when all
      were handed out, nothing below it is free and something above it is held. */
  lemma ValidateKeepsIdent(k: Keeper, ident: nat)
    requires Ordered(k) && ident in k.held
    ensures Revised(k, ident, false) == Some(ident) <==>
      k.next > k.max && (exists x :: x in k.held && ident < x) &&
      forall x: nat :: k.min <= x < ident ==> x in k.held
  {
    var u := k.(held := Removed(k.held, ident));
    WithoutIsOrdered(k, ident);
    ReserveKeepsOrder(u);
    MembersFit(k);
    if k.next > k.max && forall x: nat :: k.min <= x < ident ==> x in k.held {
      forall x | x in k.held && ident < x ensures Revised(k, ident, false) == Some(ident) {
        assert x in u.held;
        if Contiguous(u.held, u.min) { ContiguousHolds(u.held, u.min); }
        var g := Revised(k, ident, false).value;
        assert g >= ident by { assert g !in u.held; }
        assert g <= ident by { assert ident !in u.held; }
      }
    }
  }

  // ---- runs -------------------------------------------------------------------------

  datatype Op = Take | Give(ident: nat) | Check(ident: nat, valid: bool)

  function Do(k: Keeper, op: Op): Keeper {
    match op
    case Take => Reserve(k)
    case Give(ident) => if ident in k.held then Dispose(k, ident) else k
    case Check(ident, valid) => if ident in k.held then Validate(k, ident, valid) else k
  }

  function Run(k: Keeper, ops: seq<Op>): Keeper {
    if ops == [] then k else Do(Run(k, ops[..|ops| - 1]), ops[|ops| - 1])
  }

  function New(min: nat, max: nat): Keeper { Keeper(min, max, min, []) }

  /** In every run, also with validations, identifiers are held once, in order and
      within the limits. */
  lemma {:induction false} RunsStayOrdered(min: nat, max: nat, ops: seq<Op>)
    requires min <= max
    ensures var k := Run(New(min, max), ops); Ordered(k) && k.min == min && k.max == max
    decreases |ops|
  {
    if ops != [] {
      var k := Run(New(min, max), ops[..|ops| - 1]);
      RunsStayOrdered(min, max, ops[..|ops| - 1]);
      match ops[|ops| - 1]
      case Take => ReserveKeepsOrder(k);
      case Give(ident) => if ident in k.held { DisposeKeepsOrder(k, ident); }
      case Check(ident, valid) =>
        if ident in k.held {
          WithoutIsOrdered(k, ident);
          ReserveKeepsOrder(k.(held := Removed(k.held, ident)));
        }
    }
  }

  lemma {:induction false} RunsStayExact(min: nat, max: nat, ops: seq<Op>)
    requires min <= max && forall i :: 0 <= i < |ops| ==> !ops[i].Check?
    ensures var k := Run(New(min, max), ops); Exact(k) && k.min == min && k.max == max
    decreases |ops|
  {
    if ops != [] {
      var k := Run(New(min, max), ops[..|ops| - 1]);
      RunsStayExact(min, max, ops[..|ops| - 1]);
      match ops[|ops| - 1]
      case Take => ReserveRefines(k);
      case Give(ident) => if ident in k.held { DisposeRefines(k, ident); }
      case _ =>
    }
  }

  lemma {:induction false} AscendingSpans(held: seq<nat>, start: nat, end: nat)
    requires Ascending(held) && start <= end && forall x :: x in held ==> start <= x < end
    ensures |held| <= end - start
    ensures |held| == end - start ==> Contiguous(held, start)
    decreases |held|
  {
    if held != [] {
      Tail(held);
      assert held[0] in held;
      AscendingSpans(held[1..], held[0] + 1, end);
    }
  }

  /** In every run of reservations and disposals, a reservation fails exactly when all
      max - min + 1 identifiers are held. */
  lemma ReservesUntilFull(min: nat, max: nat, ops: seq<Op>)
    requires min <= max && forall i :: 0 <= i < |ops| ==> !ops[i].Check?
    ensures var k := Run(New(min, max), ops);
      NextIdent(k) == None <==> |k.held| == max - min + 1
  {
    RunsStayExact(min, max, ops);
    var k := Run(New(min, max), ops);
    ReserveRefines(k);
    ReserveKeepsOrder(k);
    MembersFit(k);
    if NextIdent(k) == None { ContiguousHolds(k.held, min); }
    AscendingSpans(k.held, min, max + 1);
    if |k.held| == max - min + 1 {
      ContiguousHolds(k.held, min);
      assert max in k.held;
    }
  }

  lemma TwoTaken(min: nat)
    ensures Run(New(min, min + 1), [Take, Take]) == Keeper(min, min + 1, min + 2, [min, min + 1])
  {
    var k0 := New(min, min + 1);
    var two := [Take, Take];
    assert two[..1] == [Take] && two[..1][..0] == [];
    assert Run(k0, []) == k0;
    assert Run(k0, [Take]) == Keeper(min, min + 1, min + 1, [min]);
    assert Inserted([min], min + 1) == [min, min + 1] by {
      assert [min][1..] == [];
      assert Inserted([], min + 1) == [min + 1];
    }
  }

  lemma SecondDropped(min: nat)
    ensures Validate(Keeper(min, min + 1, min + 2, [min, min + 1]), min + 1, false) ==
      Keeper(min, min + 1, min + 2, [min])
    ensures NextIdent(Keeper(min, min + 1, min + 2, [min])) == None
  {
    assert Removed([min, min + 1], min + 1) == [min] by {
      assert [min, min + 1][1..] == [min + 1] && [min + 1][1..] == [];
      assert Removed([min + 1], min + 1) == [];
    }
    assert Gap([min], min) == None by { assert Gap([], min + 1) == None && [min][1..] == []; }
  }

  /** With validations this is lost: two identifiers are handed out, the second one
      becomes invalid and is dropped, and the next reservation fails although it is
      free. */
  lemma ValidateLosesIdent(min: nat)
    ensures var k := Run(New(min, min + 1), [Take, Take, Check(min + 1, false)]);
      NextIdent(k) == None && Free(k) == {min + 1}
  {
    hide Inserted, Removed, Gap, Reserve, Validate, NextIdent;
    var ops := [Take, Take, Check(min + 1, false)];
    assert ops[..2] == [Take, Take];
    TwoTaken(min);
    SecondDropped(min);
    assert Run(New(min, min + 1), ops) == Keeper(min, min + 1, min + 2, [min]);
  }
}
