/** From the configuration of a virtual machine to its core parameters, and when the
    result passes the checks.
  */
module Translate {
  import opened Wrappers
  import opened CoreParameters
  import opened Checks

  datatype Console = Console(name: string, backend: Option<string>)

  // The part of bhyve_configuration that is translated; None is a NULL pointer.
  datatype VmConfig = VmConfig(
    name: string, bootrom: Option<string>, hostbridge: Option<string>, consoles: seq<Console>,
    memory: nat, numcpus: nat, sockets: nat, cores: nat,
    vmexitOnHalt: bool, acpiTables: bool, wireMemory: bool)

  function Lower(c: char): char { if 'A' <= c <= 'Z' then c + 32 as char else c }

  // strcasecmp of two strings is zero
  predicate SameIgnoringCase(a: string, b: string) {
    |a| == |b| && forall i :: 0 <= i < |a| ==> Lower(a[i]) == Lower(b[i])
  }

  function BridgeOf(name: string): Hostbridge { if SameIgnoringCase(name, "amd") then Amd else Standard }

  // The COM port of the i-th console.
  function Port(consoles: seq<Console>, i: nat): Comport {
    if i < |consoles| then
      Comport(Clipped(consoles[i].name, NAME_MAX), true,
              match consoles[i].backend case None => "" case Some(b) => Clipped(b, PATH_MAX))
    else Comport("", false, "")
  }

  function Blanks(): (ports: seq<Comport>)
    ensures |ports| == 4
  {
    seq(4, _ => Comport("", false, ""))
  }

  // Everything but ports and slots.
  function Basics(bc: VmConfig): Params {
    Params(bc.acpiTables, bc.memory, bc.numcpus, bc.sockets, bc.cores, bc.vmexitOnHalt, bc.wireMemory,
           Clipped(bc.name, NAME_MAX), Blanks(),
           Bootrom(match bc.bootrom case None => "" case Some(b) => Clipped(b, PATH_MAX), false, ""), [])
  }

  function BridgeSlots(bc: VmConfig): seq<Slot> {
    match bc.hostbridge case None => [] case Some(h) => [Slot(TypeHostbridge(BridgeOf(h)), 0, 0, 0)]
  }

  function IsaSlots(bc: VmConfig): seq<Slot> {
    if bc.consoles == [] then [] else [Slot(TypeIsaBridge, 0, 1, 0)]
  }

  function Ports(consoles: seq<Console>): seq<Comport> {
    [Port(consoles, 0), Port(consoles, 1), Port(consoles, 2), Port(consoles, 3)]
  }

  /** What ptc_translate makes of a configuration. */
  function Translated(bc: VmConfig): Params {
    Basics(bc).(comports := Ports(bc.consoles), pcislots := IsaSlots(bc) + BridgeSlots(bc))
  }

  // ptc_translate
  method TranslateConfig(bc: VmConfig) returns (bpc: Core)
    ensures fresh(bpc) && bpc.Model() == Translated(bc)
    ensures bpc.acpiTables == bc.acpiTables && bpc.yieldOnHlt == bc.vmexitOnHalt && bpc.wireMemory == bc.wireMemory
  {
    bpc := TranslateBasics(bc);
    if bc.hostbridge.Some? {
      bpc.AddPciSlotAt(0, 0, 0, TypeHostbridge(BridgeOf(bc.hostbridge.value)));
    }
    assert bpc.pcislots == BridgeSlots(bc);
    if |bc.consoles| != 0 {
      AddConsoles(bpc, bc.consoles);
      bpc.AddPciSlotAt(0, 1, 0, TypeIsaBridge);
    }
    assert bpc.comports == Ports(bc.consoles);
    assert bpc.pcislots == IsaSlots(bc) + BridgeSlots(bc);
  }

  method TranslateBasics(bc: VmConfig) returns (bpc: Core)
    ensures fresh(bpc) && bpc.Model() == Basics(bc)
  {
    bpc := new Core(bc.name);
    if bc.bootrom.Some? {
      var _ := bpc.SetBootrom(bc.bootrom.value, false, None);
    }
    bpc.yieldOnHlt := bc.vmexitOnHalt;
    bpc.acpiTables := bc.acpiTables;
    bpc.wireMemory := bc.wireMemory;
    TransferNumbers(bc, bpc);
  }

  // The transfers of values that are not zero.
  method TransferNumbers(bc: VmConfig, bpc: Core)
    requires bpc.memory == bpc.numcpus == bpc.sockets == bpc.cores == 0
    modifies bpc`memory, bpc`numcpus, bpc`sockets, bpc`cores
    ensures bpc.memory == bc.memory && bpc.numcpus == bc.numcpus
    ensures bpc.sockets == bc.sockets && bpc.cores == bc.cores
  {
    if bc.memory != 0 { bpc.memory := bc.memory; }
    if bc.numcpus != 0 { bpc.numcpus := bc.numcpus; }
    if bc.sockets != 0 { bpc.sockets := bc.sockets; }
    if bc.cores != 0 { bpc.cores := bc.cores; }
  }

  // The loop over the consoles.
  method AddConsoles(bpc: Core, consoles: seq<Console>)
    requires bpc.comports == Blanks()
    modifies bpc`comports
    ensures bpc.comports == Ports(consoles)
  {
    for i := 0 to 4
      invariant |bpc.comports| == 4
      invariant forall k :: 0 <= k < 4 ==>
        bpc.comports[k] == if k < i then Port(consoles, k) else Comport("", false, "")
    {
      if i < |consoles| {
        var bcc := consoles[i];
        var _ := bpc.EnableComport(bcc.name, i, true);
        if bcc.backend.Some? && bcc.backend.value != "" {
          var _ := bpc.SetComportBackend(i, bcc.backend.value);
        }
      }
    }
  }

  /** A translated configuration passes the checks exactly when it has a name, a host
      bridge, a boot rom and at least one console. */
  lemma TranslationPassesExactly(bc: VmConfig)
    ensures Bootable(Translated(bc)) <==>
      bc.name != "" && bc.hostbridge.Some? && bc.bootrom.Some? && bc.bootrom.value != "" && bc.consoles != []
  {
    SlotsOfTranslation(bc);
  }

  lemma SlotsOfTranslation(bc: VmConfig)
    ensures var slots := Translated(bc).pcislots;
      IsaBridges(slots) == IsaSlots(bc) && Hostbridges(slots) == BridgeSlots(bc)
  {
    var (isa, bridges) := (IsaSlots(bc), BridgeSlots(bc));
    assert Hostbridges(bridges) == bridges && IsaBridges(bridges) == [] by {
      if bridges != [] { assert bridges[1..] == []; }
    }
    if isa != [] {
      assert (isa + bridges)[1..] == bridges;
    } else {
      assert isa + bridges == bridges;
    }
  }
}
