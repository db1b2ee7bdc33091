/** The identifier keeper with its list of reservation handles, updated in place. */
module IdentKeeping {
  import Spec = IdentSpec

  const UINT64_MAX: nat := 0xFFFF_FFFF_FFFF_FFFF

  class Reservation {
    var reservationId: nat
    var ident: nat

    constructor (reservationId: nat, ident: nat)
      ensures this.reservationId == reservationId && this.ident == ident
    {
      this.reservationId := reservationId;
      this.ident := ident;
    }
  }

  // The identifiers of a list of reservations.
  ghost function Idents(list: seq<Reservation>): (held: seq<nat>)
    reads list
    ensures |held| == |list| && forall i :: 0 <= i < |list| ==> held[i] == list[i].ident
  {
    seq(|list|, i requires 0 <= i < |list| reads list => list[i].ident)
  }

  lemma {:induction false} InsertedAt(held: seq<nat>, ident: nat, i: nat)
    requires i <= |held| && forall k :: 0 <= k < i ==> held[k] <= ident
    requires i < |held| ==> held[i] > ident
    ensures Spec.Inserted(held, ident) == held[..i] + [ident] + held[i..]
    decreases |held|
  {
    if i > 0 {
      InsertedAt(held[1..], ident, i - 1);
      assert held[..i] == [held[0]] + held[1..][..i - 1];
    }
  }

  lemma {:induction false} RemovedAt(held: seq<nat>, i: nat)
    requires i < |held| && forall k :: 0 <= k < i ==> held[k] != held[i]
    ensures Spec.Removed(held, held[i]) == held[..i] + held[i + 1..]
    decreases |held|
  {
    if i > 0 {
      RemovedAt(held[1..], i - 1);
      assert held[..i] == [held[0]] + held[1..][..i - 1];
    }
  }

  lemma SplicedMembers<T>(list: seq<T>, x: T, i: nat)
    requires i <= |list|
    ensures forall r :: r in list[..i] + [x] + list[i..] <==> r == x || r in list
  {
    assert list == list[..i] + list[i..];
  }

  lemma Spliced(list: seq<Reservation>, ikr: Reservation, i: nat)
    requires i <= |list|
    ensures Idents(list[..i] + [ikr] + list[i..]) == Idents(list)[..i] + [ikr.ident] + Idents(list)[i..]
  {
  }

  lemma UnlinkedMembers<T>(list: seq<T>, i: nat)
    requires i < |list| && forall k :: 0 <= k < |list| && k != i ==> list[k] != list[i]
    ensures forall r :: r in list[..i] + list[i + 1..] <==> r != list[i] && r in list
  {
    var after := list[..i] + list[i + 1..];
    assert list == list[..i] + [list[i]] + list[i + 1..];
    assert forall k :: 0 <= k < |after| ==> after[k] == list[if k < i then k else k + 1];
  }

  lemma Unlinked(list: seq<Reservation>, i: nat)
    requires i < |list|
    ensures Idents(list[..i] + list[i + 1..]) == Idents(list)[..i] + Idents(list)[i + 1..]
  {
  }

  class IdentKeeper {
    const identMin: nat
    const identMax: nat
    var identNext: nat
    var reservationCounter: nat
    var reservations: seq<Reservation>

    ghost function Model(): Spec.Keeper
      reads this, reservations
    {
      Spec.Keeper(identMin, identMax, identNext, Idents(reservations))
    }

    ghost predicate Valid()
      reads this, reservations
    {
      identMin <= identMax < UINT64_MAX && Spec.Ordered(Model())
    }

    // ik_new; null for reversed limits.
    static method New(identMin: nat, identMax: nat) returns (ik: IdentKeeper?)
      requires identMax < UINT64_MAX
      ensures ik == null <==> identMin > identMax
      ensures ik != null ==>
        fresh(ik) && ik.Valid() && ik.Model() == Spec.New(identMin, identMax) && ik.reservationCounter == 0
    {
      if identMin > identMax { return null; }
      ik := new IdentKeeper(identMin, identMax);
    }

    constructor (identMin: nat, identMax: nat)
      requires identMin <= identMax < UINT64_MAX
      ensures Valid() && Model() == Spec.New(identMin, identMax) && reservationCounter == 0
    {
      this.identMin := identMin;
      this.identMax := identMax;
      identNext := identMin;
      reservationCounter := 0;
      reservations := [];
    }

    // ik_next_ident_locked; false stands for ENOENT.
    method NextIdent() returns (ok: bool, ident: nat)
      requires Valid()
      modifies this`identNext
      ensures ok == Spec.NextIdent(old(Model())).Some?
      ensures ok ==> ident == Spec.NextIdent(old(Model())).value
      ensures Model() == Spec.Bumped(old(Model()))
    {
      if identNext <= identMax {
        ok, ident := true, identNext;
        identNext := identNext + 1;
        return;
      }
      ident := identMin;
      var i := 0;
      ghost var held := Idents(reservations);
      while i < |reservations|
        invariant 0 <= i <= |reservations|
        invariant ident == identMin + i
        invariant Spec.Gap(held, identMin) == Spec.Gap(held[i..], ident)
      {
        if ident != reservations[i].ident { return true, ident; }
        ident := ident + 1;
        i := i + 1;
      }
      ok := false;
    }

    // ik_insert_reservation_locked
    method InsertReservation(ikr: Reservation)
      requires ikr !in reservations
      modifies this`reservations
      ensures Idents(reservations) == Spec.Inserted(old(Idents(reservations)), ikr.ident)
      ensures forall r :: r in reservations <==> r == ikr || r in old(reservations)
    {
      var i := 0;
      while i < |reservations| && reservations[i].ident <= ikr.ident
        invariant 0 <= i <= |reservations|
        invariant forall k :: 0 <= k < i ==> reservations[k].ident <= ikr.ident
      {
        i := i + 1;
      }
      InsertedAt(Idents(reservations), ikr.ident, i);
      Spliced(reservations, ikr, i);
      SplicedMembers(reservations, ikr, i);
      reservations := reservations[..i] + [ikr] + reservations[i..];
    }

    // TAILQ_REMOVE
    method Remove(ikr: Reservation)
      requires Valid() && ikr in reservations
      modifies this`reservations
      ensures Idents(reservations) == Spec.Removed(old(Idents(reservations)), ikr.ident)
      ensures forall r :: r in reservations <==> r != ikr && r in old(reservations)
    {
      var i := 0;
      while reservations[i] != ikr
        invariant 0 <= i < |reservations| && ikr !in reservations[..i]
        decreases |reservations| - i
      {
        i := i + 1;
      }
      ghost var held := Idents(reservations);
      assert forall k :: 0 <= k < |held| && k != i ==> held[k] != held[i];
      RemovedAt(held, i);
      Unlinked(reservations, i);
      UnlinkedMembers(reservations, i);
      reservations := reservations[..i] + reservations[i + 1..];
    }

    // ik_reserve
    method Reserve() returns (ikr: Reservation?)
      requires Valid()
      modifies this
      ensures Valid() && Model() == Spec.Reserve(old(Model()))
      ensures (ikr != null) == Spec.NextIdent(old(Model())).Some?
      ensures ikr != null ==>
        fresh(ikr) && ikr.ident == Spec.NextIdent(old(Model())).value &&
        ikr.reservationId == old(reservationCounter)
      ensures reservationCounter ==
        if ikr == null then old(reservationCounter) else (old(reservationCounter) + 1) % (UINT64_MAX + 1)
      ensures forall r :: r in reservations <==> r == ikr || r in old(reservations)
    {
      hide Spec.Ordered, Spec.Inserted, Spec.Removed, Spec.Gap;
      Spec.ReserveKeepsOrder(Model());
      var ok, ident := NextIdent();
      if !ok { return null; }
      ikr := new Reservation(reservationCounter, ident);
      reservationCounter := (reservationCounter + 1) % (UINT64_MAX + 1);
      InsertReservation(ikr);
    }

    lemma ListedIsHeld(ikr: Reservation)
      requires ikr in reservations
      ensures ikr.ident in Model().held
    {
      var i :| 0 <= i < |reservations| && reservations[i] == ikr;
      assert Idents(reservations)[i] == ikr.ident;
    }

    // ik_dispose
    method Dispose(ikr: Reservation)
      requires Valid() && ikr in reservations
      modifies this`identNext, this`reservations
      ensures Valid() && Model() == Spec.Dispose(old(Model()), old(ikr.ident))
      ensures forall r :: r in reservations <==> r != ikr && r in old(reservations)
    {
      ListedIsHeld(ikr);
      Spec.DisposeKeepsOrder(Model(), ikr.ident);
      Remove(ikr);
      if identNext - 1 == ikr.ident { identNext := identNext - 1; }
    }

    // ik_validate_reservation, given what the checker says of the identifier
    method ValidateReservation(ikr: Reservation, valid: bool) returns (rc: int)
      requires Valid() && ikr in reservations
      modifies this`identNext, this`reservations, ikr`ident
      ensures Valid() && Model() == Spec.Validate(old(Model()), old(ikr.ident), valid)
      ensures (rc == 0) == Spec.Revised(old(Model()), old(ikr.ident), valid).Some?
      ensures rc == 0 ==> ikr.ident == Spec.Revised(old(Model()), old(ikr.ident), valid).value
      ensures forall r :: r in reservations <==> (rc == 0 || r != ikr) && r in old(reservations)
    {
      hide Spec.Ordered, Spec.Inserted, Spec.Removed, Spec.Gap;
      if valid { return 0; }
      ListedIsHeld(ikr);
      Spec.WithoutIsOrdered(Model(), ikr.ident);
      Remove(ikr);
      Spec.ReserveKeepsOrder(Model());
      var ok, ident := NextIdent();
      if !ok { return -1; }
      ikr.ident := ident;
      InsertReservation(ikr);
      return 0;
    }
  }
}
