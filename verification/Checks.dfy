/** The rules a configuration has to meet before a virtual machine is started with it,
    and what they amount to together.
  */
module Checks {
  import opened Wrappers
  import opened Texts
  import opened CoreParameters

  // ---- counting slots --------------------------------------------------------------

  function Hostbridges(slots: seq<Slot>): seq<Slot> {
    if slots == [] then []
    else (if slots[0].kind.TypeHostbridge? then [slots[0]] else []) + Hostbridges(slots[1..])
  }

  function IsaBridges(slots: seq<Slot>): seq<Slot> {
    if slots == [] then []
    else (if slots[0].kind.TypeIsaBridge? then [slots[0]] else []) + IsaBridges(slots[1..])
  }

  // "%d:%d:%d"
  function Ident(s: Slot): string {
    Decimal(s.bus) + ":" + Decimal(s.pcislot) + ":" + Decimal(s.func)
  }

  function Idents(slots: seq<Slot>): (r: seq<string>)
    ensures |r| == |slots| && forall i :: 0 <= i < |slots| ==> r[i] == Ident(slots[i])
  {
    seq(|slots|, i requires 0 <= i < |slots| => Ident(slots[i]))
  }

  predicate SamePlace(a: Slot, b: Slot) { a.bus == b.bus && a.pcislot == b.pcislot && a.func == b.func }

  predicate DistinctPlaces(slots: seq<Slot>) {
    forall i, j :: 0 <= i < j < |slots| ==> !SamePlace(slots[i], slots[j])
  }

  // The identifier fits its 16 bytes with the zero at the end.
  lemma IdentFits(s: Slot)
    ensures |Ident(s)| < 16
  {
    SmallDecimal(s.bus);
    SmallDecimal(s.pcislot);
    SmallDecimal(s.func);
  }

  lemma SmallDecimal(n: nat)
    requires n < 1000
    ensures |Decimal(n)| <= 3
  {
    if n >= 10 {
      var m := n / 10;
      assert |Decimal(m)| <= 2 by {
        if m >= 10 { assert |Decimal(m / 10)| == 1; }
      }
    }
  }

  /** Two slots have the same identifier exactly when they have the same place. */
  lemma IdentIsPlace(a: Slot, b: Slot)
    ensures Ident(a) == Ident(b) <==> SamePlace(a, b)
  {
    if Ident(a) == Ident(b) {
      var (x, y) := (Decimal(a.pcislot) + ":" + Decimal(a.func), Decimal(b.pcislot) + ":" + Decimal(b.func));
      assert Ident(a) == Decimal(a.bus) + [':'] + x && Ident(b) == Decimal(b.bus) + [':'] + y;
      SplitAtFirst(Decimal(a.bus), x, Decimal(b.bus), y, ':');
      SplitAtFirst(Decimal(a.pcislot), Decimal(a.func), Decimal(b.pcislot), Decimal(b.func), ':');
      DecimalIsInjective(a.bus, b.bus);
      DecimalIsInjective(a.pcislot, b.pcislot);
      DecimalIsInjective(a.func, b.func);
    }
  }

  predicate Unique(idents: seq<string>) { forall i, j :: 0 <= i < j < |idents| ==> idents[i] != idents[j] }

  lemma UniqueIdents(slots: seq<Slot>)
    ensures Unique(Idents(slots)) <==> DistinctPlaces(slots)
  {
    forall i, j | 0 <= i < j < |slots|
      ensures Idents(slots)[i] == Idents(slots)[j] <==> SamePlace(slots[i], slots[j])
    {
      IdentIsPlace(slots[i], slots[j]);
    }
  }

  // ---- string lists ------------------------------------------------------------------

  class StringList {
    var items: seq<string>

    constructor ()
      ensures items == []
    {
      items := [];
    }

    // sl_has
    method Has(s: string) returns (has: bool)
      ensures has <==> s in items
    {
      for i := 0 to |items|
        invariant s !in items[..i]
      {
        if items[i] == s { return true; }
      }
      return false;
    }

    // sl_add
    method Add(s: string)
      modifies this
      ensures items == [s] + old(items)
    {
      items := [s] + items;
    }
  }

  // ---- the rules -------------------------------------------------------------------------

  datatype Rule =
    | NonNull | Name | HostbridgeExists | SingleHostbridge | HostbridgeSlot | SingleIsaBridge
    | ComWithIsa | BootromWithIsa | BootromSet | IsaBridgeBus | PciIdConflict

  // bpchecks, in the order of the table
  const RULES: seq<Rule> := [
    NonNull, Name, HostbridgeExists, SingleHostbridge, HostbridgeSlot, SingleIsaBridge,
    ComWithIsa, BootromWithIsa, BootromSet, IsaBridgeBus, PciIdConflict
  ]

  predicate AllOnBusZero(slots: seq<Slot>) {
    slots == [] || (slots[0].bus == 0 && AllOnBusZero(slots[1..]))
  }

  // What each rule demands.
  predicate Holds(rule: Rule, p: Params) {
    var bridges := Hostbridges(p.pcislots);
    var isa := IsaBridges(p.pcislots);
    match rule
    case NonNull => true
    case Name => p.vmname != ""
    case HostbridgeExists => bridges != []
    case SingleHostbridge => |bridges| <= 1
    case HostbridgeSlot =>
      bridges != [] ==> bridges[0].bus == 0 && bridges[0].pcislot == 0 && bridges[0].func == 0
    case SingleIsaBridge => |isa| <= 1
    case ComWithIsa => (exists i :: 0 <= i < |p.comports| && p.comports[i].enabled) ==> isa != []
    case BootromWithIsa => p.bootrom.bootrom != "" ==> isa != []
    case BootromSet => p.bootrom.bootrom != ""
    case IsaBridgeBus => AllOnBusZero(isa)
    case PciIdConflict => Unique(Idents(p.pcislots))
  }

  // What a virtual machine needs to be started.
  predicate Bootable(p: Params) {
    p.vmname != "" && p.bootrom.bootrom != "" &&
    OneHostbridge(Hostbridges(p.pcislots)) && OneIsaBridge(IsaBridges(p.pcislots)) &&
    DistinctPlaces(p.pcislots)
  }

  lemma BootableHolds(p: Params, rule: Rule)
    requires Bootable(p)
    ensures Holds(rule, p)
  {
    if rule == PciIdConflict { UniqueIdents(p.pcislots); }
  }

  predicate OneHostbridge(bridges: seq<Slot>) {
    |bridges| == 1 && bridges[0].bus == 0 && bridges[0].pcislot == 0 && bridges[0].func == 0
  }

  predicate OneIsaBridge(isa: seq<Slot>) { |isa| == 1 && isa[0].bus == 0 }

  lemma HostbridgeRules(p: Params)
    requires Holds(HostbridgeExists, p) && Holds(SingleHostbridge, p) && Holds(HostbridgeSlot, p)
    ensures OneHostbridge(Hostbridges(p.pcislots))
  {
  }

  lemma IsaBridgeRules(p: Params)
    requires Holds(SingleIsaBridge, p) && Holds(BootromWithIsa, p) && Holds(BootromSet, p)
    requires Holds(IsaBridgeBus, p)
    ensures OneIsaBridge(IsaBridges(p.pcislots)) && p.bootrom.bootrom != ""
  {
  }

  /** Soundness and completeness of the rules: all of them hold exactly when name and
      boot rom are set, there is one host bridge and it is at 0:0:0, there is one ISA
      bridge and it is on bus 0, and no two slots have the same place. */
  lemma RulesAreBootable(p: Params)
    ensures (forall k :: 0 <= k < |RULES| ==> Holds(RULES[k], p)) <==> Bootable(p)
  {
    if Bootable(p) {
      forall k | 0 <= k < |RULES| ensures Holds(RULES[k], p) {
        BootableHolds(p, RULES[k]);
      }
    }
    if forall k :: 0 <= k < |RULES| ==> Holds(RULES[k], p) {
      EachRule(p);
      EssentialsAreBootable(p);
    }
  }

  lemma EachRule(p: Params)
    requires forall k :: 0 <= k < |RULES| ==> Holds(RULES[k], p)
    ensures Holds(Name, p) && Holds(HostbridgeExists, p) && Holds(SingleHostbridge, p)
    ensures Holds(HostbridgeSlot, p) && Holds(SingleIsaBridge, p) && Holds(BootromWithIsa, p)
    ensures Holds(BootromSet, p) && Holds(IsaBridgeBus, p) && Holds(PciIdConflict, p)
  {
    assert Holds(RULES[1], p) && Holds(RULES[2], p) && Holds(RULES[3], p) && Holds(RULES[4], p);
    assert Holds(RULES[5], p) && Holds(RULES[7], p) && Holds(RULES[8], p) && Holds(RULES[9], p);
    assert Holds(RULES[10], p);
  }

  lemma EssentialsAreBootable(p: Params)
    requires Holds(Name, p) && Holds(HostbridgeExists, p) && Holds(SingleHostbridge, p)
    requires Holds(HostbridgeSlot, p) && Holds(SingleIsaBridge, p) && Holds(BootromWithIsa, p)
    requires Holds(BootromSet, p) && Holds(IsaBridgeBus, p) && Holds(PciIdConflict, p)
    ensures Bootable(p)
  {
    HostbridgeRules(p);
    IsaBridgeRules(p);
    UniqueIdents(p.pcislots);
  }

  // Exactly one slot of a kind, at index i.
  ghost predicate OnlySlot(slots: seq<Slot>, i: nat, isa: bool) {
    i < |slots| && forall j :: 0 <= j < |slots| ==> (OfKind(slots[j], isa) <==> j == i)
  }

  predicate OfKind(s: Slot, isa: bool) { if isa then s.kind.TypeIsaBridge? else s.kind.TypeHostbridge? }

  lemma {:induction false} NoneOfKind(slots: seq<Slot>)
    ensures Hostbridges(slots) == [] <==> forall j :: 0 <= j < |slots| ==> !OfKind(slots[j], false)
    ensures IsaBridges(slots) == [] <==> forall j :: 0 <= j < |slots| ==> !OfKind(slots[j], true)
    decreases |slots|
  {
    if slots != [] {
      NoneOfKind(slots[1..]);
      assert forall j :: 1 <= j < |slots| ==> slots[j] == slots[1..][j - 1];
    }
  }

  lemma {:induction false} OneHostbridgeExactly(slots: seq<Slot>)
    ensures |Hostbridges(slots)| == 1 <==> exists i: nat :: OnlySlot(slots, i, false)
    ensures forall i: nat :: OnlySlot(slots, i, false) ==> Hostbridges(slots) == [slots[i]]
    decreases |slots|
  {
    if slots != [] {
      var rest := slots[1..];
      NoneOfKind(rest);
      OneHostbridgeExactly(rest);
      assert forall j :: 1 <= j < |slots| ==> slots[j] == rest[j - 1];
      if OfKind(slots[0], false) {
        assert Hostbridges(rest) == [] ==> OnlySlot(slots, 0, false);
        assert forall i: nat :: OnlySlot(slots, i, false) ==> i == 0;
      } else {
        forall i: nat ensures OnlySlot(rest, i, false) <==> OnlySlot(slots, i + 1, false) {
          OnlyBehind(slots, i, false);
        }
        assert !OnlySlot(slots, 0, false);
        forall i: nat | OnlySlot(slots, i, false) ensures OnlySlot(rest, i - 1, false) {
          OnlyBehind(slots, i - 1, false);
        }
      }
    }
  }

  lemma {:induction false} OneIsaBridgeExactly(slots: seq<Slot>)
    ensures |IsaBridges(slots)| == 1 <==> exists i: nat :: OnlySlot(slots, i, true)
    ensures forall i: nat :: OnlySlot(slots, i, true) ==> IsaBridges(slots) == [slots[i]]
    decreases |slots|
  {
    if slots != [] {
      var rest := slots[1..];
      NoneOfKind(rest);
      OneIsaBridgeExactly(rest);
      assert forall j :: 1 <= j < |slots| ==> slots[j] == rest[j - 1];
      if OfKind(slots[0], true) {
        assert IsaBridges(rest) == [] ==> OnlySlot(slots, 0, true);
        assert forall i: nat :: OnlySlot(slots, i, true) ==> i == 0;
      } else {
        forall i: nat ensures OnlySlot(rest, i, true) <==> OnlySlot(slots, i + 1, true) {
          OnlyBehind(slots, i, true);
        }
        assert !OnlySlot(slots, 0, true);
        forall i: nat | OnlySlot(slots, i, true) ensures OnlySlot(rest, i - 1, true) {
          OnlyBehind(slots, i - 1, true);
        }
      }
    }
  }

  lemma OnlyBehind(slots: seq<Slot>, i: nat, isa: bool)
    requires slots != [] && !OfKind(slots[0], isa)
    ensures OnlySlot(slots[1..], i, isa) <==> OnlySlot(slots, i + 1, isa)
  {
    var rest := slots[1..];
    assert forall j :: 0 <= j < |rest| ==> rest[j] == slots[j + 1];
    if OnlySlot(rest, i, isa) {
      forall j | 0 <= j < |slots| ensures OfKind(slots[j], isa) <==> j == i + 1 {
        if j > 0 { assert slots[j] == rest[j - 1]; }
      }
    }
  }

  /** Bootable, slot by slot: name and boot rom are set, exactly one slot is a host bridge and it
      is at 0:0:0, exactly one is an ISA bridge and it is on bus 0, and no two slots have the same
      bus, slot and function. */
  lemma BootableExactly(p: Params)
    ensures Bootable(p) <==>
      p.vmname != "" && p.bootrom.bootrom != "" &&
      (exists i: nat :: OnlySlot(p.pcislots, i, false) &&
        p.pcislots[i].bus == 0 && p.pcislots[i].pcislot == 0 && p.pcislots[i].func == 0) &&
      (exists i: nat :: OnlySlot(p.pcislots, i, true) && p.pcislots[i].bus == 0) &&
      (forall i, j :: 0 <= i < j < |p.pcislots| ==>
        p.pcislots[i].bus != p.pcislots[j].bus || p.pcislots[i].pcislot != p.pcislots[j].pcislot ||
        p.pcislots[i].func != p.pcislots[j].func)
  {
    hide Hostbridges, IsaBridges, OnlySlot;
    OneHostbridgeExactly(p.pcislots);
    OneIsaBridgeExactly(p.pcislots);
    InList(p.pcislots);
  }

  lemma InList(slots: seq<Slot>)
    ensures forall i: nat, isa :: OnlySlot(slots, i, isa) ==> i < |slots|
  {
  }

  /** What each rule demands of the slots, spelled out. */
  lemma RulesExactly(p: Params)
    ensures Holds(HostbridgeExists, p) <==> exists i :: 0 <= i < |p.pcislots| && OfKind(p.pcislots[i], false)
    ensures Holds(SingleHostbridge, p) <==>
      forall i, j :: 0 <= i < j < |p.pcislots| ==> !(OfKind(p.pcislots[i], false) && OfKind(p.pcislots[j], false))
    ensures Holds(SingleIsaBridge, p) <==>
      forall i, j :: 0 <= i < j < |p.pcislots| ==> !(OfKind(p.pcislots[i], true) && OfKind(p.pcislots[j], true))
    ensures Holds(BootromWithIsa, p) <==>
      p.bootrom.bootrom == "" || exists i :: 0 <= i < |p.pcislots| && OfKind(p.pcislots[i], true)
    ensures Holds(IsaBridgeBus, p) <==>
      forall i :: 0 <= i < |p.pcislots| && OfKind(p.pcislots[i], true) ==> p.pcislots[i].bus == 0
    ensures Holds(HostbridgeSlot, p) <==>
      forall i :: 0 <= i < |p.pcislots| && FirstHostbridge(p.pcislots, i) ==>
        p.pcislots[i].bus == 0 && p.pcislots[i].pcislot == 0 && p.pcislots[i].func == 0
    ensures Holds(Name, p) <==> p.vmname != ""
    ensures Holds(BootromSet, p) <==> p.bootrom.bootrom != ""
  {
    hide Hostbridges, IsaBridges, AllOnBusZero, FirstHostbridge, OfKind;
    NoneOfKind(p.pcislots);
    AtMostOneOfKind(p.pcislots);
    IsaBridgesOnBusZero(p.pcislots);
    HostbridgeAtFront(p.pcislots);
  }

  ghost predicate FirstHostbridge(slots: seq<Slot>, i: int)
    requires 0 <= i < |slots|
  {
    OfKind(slots[i], false) && forall j :: 0 <= j < i ==> !OfKind(slots[j], false)
  }

  lemma {:induction false} AtMostOneOfKind(slots: seq<Slot>)
    ensures |Hostbridges(slots)| <= 1 <==>
      forall i, j :: 0 <= i < j < |slots| ==> !(OfKind(slots[i], false) && OfKind(slots[j], false))
    ensures |IsaBridges(slots)| <= 1 <==>
      forall i, j :: 0 <= i < j < |slots| ==> !(OfKind(slots[i], true) && OfKind(slots[j], true))
    decreases |slots|
  {
    if slots != [] {
      var rest := slots[1..];
      NoneOfKind(rest);
      AtMostOneOfKind(rest);
      assert forall j :: 1 <= j < |slots| ==> slots[j] == rest[j - 1];
      assert forall j :: 0 <= j < |rest| ==> rest[j] == slots[j + 1];
    }
  }

  lemma {:induction false} IsaBridgesOnBusZero(slots: seq<Slot>)
    ensures AllOnBusZero(IsaBridges(slots)) <==>
      forall i :: 0 <= i < |slots| && OfKind(slots[i], true) ==> slots[i].bus == 0
    decreases |slots|
  {
    if slots != [] {
      var rest := slots[1..];
      IsaBridgesOnBusZero(rest);
      if OfKind(slots[0], true) {
        assert IsaBridges(slots)[1..] == IsaBridges(rest);
      } else {
        assert IsaBridges(slots) == IsaBridges(rest);
      }
      assert AllOnBusZero(IsaBridges(slots)) <==>
        (OfKind(slots[0], true) ==> slots[0].bus == 0) && AllOnBusZero(IsaBridges(rest));
      forall i | 0 <= i < |rest| ensures rest[i] == slots[i + 1] {
      }
      forall i | 1 <= i < |slots| ensures slots[i] == rest[i - 1] {
      }
    }
  }

  lemma {:induction false} HostbridgeAtFront(slots: seq<Slot>)
    ensures forall i :: 0 <= i < |slots| && FirstHostbridge(slots, i) ==>
      Hostbridges(slots) != [] && Hostbridges(slots)[0] == slots[i]
    ensures Hostbridges(slots) != [] ==> exists i :: 0 <= i < |slots| && FirstHostbridge(slots, i)
    decreases |slots|
  {
    if slots != [] {
      var rest := slots[1..];
      HostbridgeAtFront(rest);
      assert forall j :: 0 <= j < |rest| ==> rest[j] == slots[j + 1];
      if OfKind(slots[0], false) {
        assert FirstHostbridge(slots, 0);
        assert forall i :: 0 < i < |slots| ==> !FirstHostbridge(slots, i);
      } else {
        forall i | 0 < i < |slots| ensures FirstHostbridge(slots, i) <==> FirstHostbridge(rest, i - 1) {
          FirstBehind(slots, i);
        }
        forall i | 0 <= i < |rest| ensures FirstHostbridge(slots, i + 1) <==> FirstHostbridge(rest, i) {
          FirstBehind(slots, i + 1);
        }
      }
    }
  }

  lemma FirstBehind(slots: seq<Slot>, i: nat)
    requires 0 < i < |slots| && !OfKind(slots[0], false)
    ensures FirstHostbridge(slots, i) <==> FirstHostbridge(slots[1..], i - 1)
  {
    var rest := slots[1..];
    if FirstHostbridge(rest, i - 1) {
      forall j | 0 <= j < i ensures !OfKind(slots[j], false) {
        if j > 0 { assert slots[j] == rest[j - 1]; }
      }
    }
    if FirstHostbridge(slots, i) {
      forall j | 0 <= j < i - 1 ensures !OfKind(rest[j], false) { assert rest[j] == slots[j + 1]; }
    }
  }

  /** The rule on COM ports follows from the two rules on the boot rom. */
  lemma ComRuleIsRedundant(p: Params)
    requires Holds(BootromWithIsa, p) && Holds(BootromSet, p)
    ensures Holds(ComWithIsa, p)
  {
  }

  // ---- the checks of check_core.c and check_isabridge.c --------------------------------------

  // check_bpc_counthostbridge
  method CountHostbridge(bpc: Core) returns (counter: nat)
    ensures counter == |Hostbridges(bpc.pcislots)|
  {
    counter := 0;
    var iter := bpc.IterPciSlots();
    while true
      invariant iter.Valid() && fresh(iter)
      invariant counter + |Hostbridges(iter.Rest())| == |Hostbridges(bpc.pcislots)|
      decreases |iter.Rest()|
    {
      var more := iter.Next();
      if !more { break; }
      var slot := iter.Item();
      if slot.kind.TypeHostbridge? { counter := counter + 1; }
    }
  }

  // check_bpc_countisabridge
  method CountIsaBridge(bpc: Core) returns (counter: nat)
    ensures counter == |IsaBridges(bpc.pcislots)|
  {
    counter := 0;
    var iter := bpc.IterPciSlots();
    while true
      invariant iter.Valid() && fresh(iter)
      invariant counter + |IsaBridges(iter.Rest())| == |IsaBridges(bpc.pcislots)|
      decreases |iter.Rest()|
    {
      var more := iter.Next();
      if !more { break; }
      var slot := iter.Item();
      if slot.kind.TypeIsaBridge? { counter := counter + 1; }
    }
  }

  // check_bpc_hostbridgeslot
  method CheckHostbridgeSlot(bpc: Core) returns (ok: bool)
    ensures ok == Holds(HostbridgeSlot, bpc.Model())
  {
    var iter := bpc.IterPciSlots();
    while true
      invariant iter.Valid() && fresh(iter)
      invariant Hostbridges(iter.Rest()) == Hostbridges(bpc.pcislots)
      decreases |iter.Rest()|
    {
      var more := iter.Next();
      if !more { break; }
      var slot := iter.Item();
      if slot.kind.TypeHostbridge? { return slot.bus == 0 && slot.pcislot == 0 && slot.func == 0; }
    }
    return true;
  }

  // check_bpc_isabridgebus
  method CheckIsaBridgeBus(bpc: Core) returns (ok: bool)
    ensures ok == Holds(IsaBridgeBus, bpc.Model())
  {
    var iter := bpc.IterPciSlots();
    while true
      invariant iter.Valid() && fresh(iter)
      invariant AllOnBusZero(IsaBridges(bpc.pcislots)) == AllOnBusZero(IsaBridges(iter.Rest()))
      decreases |iter.Rest()|
    {
      ghost var rest := iter.Rest();
      var more := iter.Next();
      if !more { break; }
      var slot := iter.Item();
      if slot.kind.TypeIsaBridge? {
        assert IsaBridges(rest)[1..] == IsaBridges(iter.Rest());
        if slot.bus != 0 { return false; }
      } else {
        assert IsaBridges(rest) == IsaBridges(iter.Rest());
      }
    }
    return true;
  }

  // check_bpc_comwithisa
  method CheckComWithIsa(bpc: Core) returns (ok: bool)
    requires |bpc.comports| == 4
    ensures ok == Holds(ComWithIsa, bpc.Model())
  {
    var anyEnabled := false;
    for counter := 0 to 4
      invariant anyEnabled <==> exists i :: 0 <= i < counter && bpc.comports[i].enabled
    {
      anyEnabled := anyEnabled || bpc.comports[counter].enabled;
    }
    if !anyEnabled { return true; }
    var count := CountIsaBridge(bpc);
    return count != 0;
  }

  // The list of strings holds the first n identifiers, which are distinct.
  ghost predicate Listed(items: seq<string>, idents: seq<string>, n: nat)
    requires n <= |idents|
  {
    Unique(idents[..n]) && forall x :: x in items <==> x in idents[..n]
  }

  lemma NothingListed(idents: seq<string>)
    ensures Listed([], idents, 0)
  {
  }

  lemma ListedGrows(items: seq<string>, idents: seq<string>, n: nat)
    requires n < |idents| && Listed(items, idents, n)
    ensures idents[n] in items ==> !Unique(idents)
    ensures idents[n] !in items ==> Listed([idents[n]] + items, idents, n + 1)
  {
    assert idents[..n + 1] == idents[..n] + [idents[n]];
    if idents[n] in items {
      var k :| 0 <= k < n && idents[..n][k] == idents[n];
      assert idents[k] == idents[n];
    }
  }

  lemma AllListed(items: seq<string>, idents: seq<string>)
    requires Listed(items, idents, |idents|)
    ensures Unique(idents)
  {
    assert idents[..|idents|] == idents;
  }

  // check_bpc_pciidconflict
  method CheckPciIdConflict(bpc: Core) returns (ok: bool)
    ensures ok == Holds(PciIdConflict, bpc.Model())
  {
    hide Ident, Unique, Listed;
    var iter := bpc.IterPciSlots();
    var sl := new StringList();
    ghost var n := 0;
    ghost var idents := Idents(bpc.pcislots);
    NothingListed(idents);
    while true
      invariant iter.Valid() && fresh(iter) && fresh(sl)
      invariant 0 <= n <= |idents| && iter.Rest() == bpc.pcislots[n..] && Listed(sl.items, idents, n)
      decreases |iter.Rest()|
    {
      var more := iter.Next();
      if !more { break; }
      var slot := iter.Item();
      var ident := Ident(slot);
      assert slot == bpc.pcislots[n] && ident == idents[n];
      ListedGrows(sl.items, idents, n);
      var has := sl.Has(ident);
      if has { return false; }
      sl.Add(ident);
      n := n + 1;
    }
    AllListed(sl.items, idents);
    return true;
  }

  // The functions of the rule table. Only the first one may be called without parameters.
  method Check(rule: Rule, bpc: Core?) returns (ok: bool)
    requires bpc == null ==> rule == NonNull
    requires bpc != null ==> |bpc.comports| == 4
    ensures ok == (bpc != null && Holds(rule, bpc.Model()))
  {
    match rule
    case NonNull => ok := bpc != null;
    case Name => ok := bpc.vmname != "";
    case HostbridgeExists =>
      var counter := CountHostbridge(bpc);
      ok := counter != 0;
    case SingleHostbridge =>
      var counter := CountHostbridge(bpc);
      ok := counter <= 1;
    case HostbridgeSlot => ok := CheckHostbridgeSlot(bpc);
    case SingleIsaBridge =>
      var counter := CountIsaBridge(bpc);
      ok := counter <= 1;
    case ComWithIsa => ok := CheckComWithIsa(bpc);
    case BootromWithIsa =>
      if bpc.bootrom.bootrom == "" { return true; }
      var counter := CountIsaBridge(bpc);
      ok := counter != 0;
    case BootromSet => ok := bpc.bootrom.bootrom != "";
    case IsaBridgeBus => ok := CheckIsaBridgeBus(bpc);
    case PciIdConflict => ok := CheckPciIdConflict(bpc);
  }

  // check_parameters_ok: the first broken rule, if there is one
  method CheckParametersOk(bpc: Core?) returns (broken: Option<Rule>)
    requires bpc != null ==> |bpc.comports| == 4
    ensures bpc == null ==> broken == Some(NonNull)
    ensures bpc != null ==> (broken == None <==> Bootable(bpc.Model()))
    ensures bpc != null && broken.Some? ==>
      exists k :: 0 <= k < |RULES| && broken.value == RULES[k] && !Holds(RULES[k], bpc.Model()) &&
        forall j :: 0 <= j < k ==> Holds(RULES[j], bpc.Model())
  {
    if bpc != null { RulesAreBootable(bpc.Model()); }
    for counter := 0 to |RULES|
      invariant bpc == null ==> counter == 0
      invariant bpc != null ==> forall j :: 0 <= j < counter ==> Holds(RULES[j], bpc.Model())
    {
      assert RULES[0] == NonNull;
      var ok := Check(RULES[counter], bpc);
      if !ok { return Some(RULES[counter]); }
    }
    return None;
  }
}
