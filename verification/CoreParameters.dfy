/** The core parameters of a virtual machine: config_core.c with its setters, its list
    of PCI slots and the iterator over it.
  */
module CoreParameters {
  import opened Wrappers

  const NAME_MAX: nat := 255
  const PATH_MAX: nat := 1024

  datatype Hostbridge = Standard | Amd

  datatype SlotType =
    | TypeHostbridge(bridge: Hostbridge) | TypeBlock | TypeNet | TypeControl | TypeCdrom | TypeVnc
    | TypeIsaBridge | TypeInvalid

  type uint8 = x: int | 0 <= x < 256

  datatype Slot = Slot(kind: SlotType, bus: uint8, pcislot: uint8, func: uint8)

  datatype Comport = Comport(portname: string, enabled: bool, backend: string)

  datatype Bootrom = Bootrom(bootrom: string, withVars: bool, varsfile: string)

  // Numbers are as wide as in the source: memory has 32 bits, the others 16.
  datatype Params = Params(
    acpiTables: bool, memory: nat, numcpus: nat, sockets: nat, cores: nat,
    yieldOnHlt: bool, wireMemory: bool, vmname: string,
    comports: seq<Comport>, bootrom: Bootrom, pcislots: seq<Slot>)

  // What strncpy keeps.
  function Clipped(s: string, n: nat): (r: string)
    ensures |r| <= n && (|s| <= n ==> r == s) && (0 < n ==> (r == "" <==> s == ""))
  {
    if |s| <= n then s else s[..n]
  }

  class Core {
    var acpiTables: bool
    var memory: nat
    var numcpus: nat
    var sockets: nat
    var cores: nat
    var yieldOnHlt: bool
    var wireMemory: bool
    var vmname: string
    var comports: seq<Comport>
    var bootrom: Bootrom
    var pcislots: seq<Slot>

    ghost function Model(): Params
      reads this
    {
      Params(acpiTables, memory, numcpus, sockets, cores, yieldOnHlt, wireMemory, vmname,
             comports, bootrom, pcislots)
    }

    // bpc_new
    constructor (vmname: string)
      ensures Model() == Params(false, 0, 0, 0, 0, false, false, Clipped(vmname, NAME_MAX),
                                seq(4, _ => Comport("", false, "")), Bootrom("", false, ""), [])
    {
      this.vmname := Clipped(vmname, NAME_MAX);
      acpiTables, memory, numcpus, sockets, cores, yieldOnHlt, wireMemory := false, 0, 0, 0, 0, false, false;
      comports := seq(4, _ => Comport("", false, ""));
      bootrom := Bootrom("", false, "");
      pcislots := [];
    }

    // bpc_set_bootrom
    method SetBootrom(bootrom: string, withVars: bool, varsfile: Option<string>) returns (rc: int)
      modifies this
      ensures rc == if withVars && varsfile.None? then -1 else 0
      ensures Model() ==
        if rc == 0 then old(Model()).(bootrom := Bootrom(Clipped(bootrom, PATH_MAX), withVars,
          if withVars then Clipped(varsfile.value, PATH_MAX) else old(this.bootrom).varsfile))
        else old(Model())
    {
      if withVars && varsfile.None? { return -1; }
      this.bootrom := this.bootrom.(bootrom := Clipped(bootrom, PATH_MAX), withVars := withVars);
      if withVars { this.bootrom := this.bootrom.(varsfile := Clipped(varsfile.value, PATH_MAX)); }
      return 0;
    }

    // bpc_enable_comport
    method EnableComport(portname: string, comport: nat, enabled: bool) returns (rc: int)
      requires |comports| == 4
      modifies this`comports
      ensures rc == if comport > 3 then -1 else 0
      ensures comports == if comport > 3 then old(comports) else
        old(comports)[comport := Comport(Clipped(portname, NAME_MAX), enabled, old(comports)[comport].backend)]
    {
      if comport > 3 { return -1; }
      comports := comports[comport := comports[comport].(enabled := enabled, portname := Clipped(portname, NAME_MAX))];
      return 0;
    }

    // bpc_set_comport_backend
    method SetComportBackend(comport: nat, backend: string) returns (rc: int)
      requires |comports| == 4
      modifies this`comports
      ensures rc == if comport > 3 then -1 else 0
      ensures comports == if comport > 3 then old(comports) else
        old(comports)[comport := old(comports)[comport].(backend := Clipped(backend, PATH_MAX))]
    {
      if comport > 3 { return -1; }
      comports := comports[comport := comports[comport].(backend := Clipped(backend, PATH_MAX))];
      return 0;
    }

    // bpc_addpcislot_at
    method AddPciSlotAt(bus: uint8, pcislot: uint8, func: uint8, kind: SlotType)
      modifies this`pcislots
      ensures pcislots == [Slot(kind, bus, pcislot, func)] + old(pcislots)
    {
      pcislots := [Slot(kind, bus, pcislot, func)] + pcislots;
    }

    // bpc_iter_pcislots
    method IterPciSlots() returns (iter: SlotIter)
      ensures fresh(iter) && iter.Valid() && iter.Rest() == pcislots
    {
      iter := new SlotIter(pcislots);
    }
  }

  // The iterator: `first` until the first step, `current` from then on. Items of the
  // list are given by their index.
  class SlotIter {
    const slots: seq<Slot>
    var first: Option<nat>
    var current: Option<nat>

    ghost predicate Valid()
      reads this
    {
      (first.Some? ==> first.value < |slots|) && (current.Some? ==> current.value < |slots|)
    }

    // What the next steps will give.
    ghost function Rest(): seq<Slot>
      requires Valid()
      reads this
    {
      if first.Some? then slots[first.value..]
      else if current.Some? then slots[current.value + 1..]
      else []
    }

    constructor (slots: seq<Slot>)
      ensures Valid() && Rest() == slots
    {
      this.slots := slots;
      current := None;
      first := if slots == [] then None else Some(0);
    }

    // bppi_next
    method Next() returns (more: bool)
      requires Valid()
      modifies this
      ensures Valid() && more == (old(Rest()) != [])
      ensures more ==> current.Some? && slots[current.value] == old(Rest())[0] && Rest() == old(Rest())[1..]
      ensures !more ==> Rest() == []
    {
      if first.Some? {
        current, first := first, None;
        return true;
      }
      if current.None? { return false; }
      current := if current.value + 1 < |slots| then Some(current.value + 1) else None;
      return current.Some?;
    }

    // bppi_item
    method Item() returns (slot: Slot)
      requires Valid() && current.Some?
      ensures slot == slots[current.value]
    {
      slot := slots[current.value];
    }
  }
}
