/** The status of all virtual machines as a name-value list and back: vm_info.c. */
module VmInfo {
  import opened Wrappers
  import opened Sockets
  import opened NvMapping

  type text = seq<byte>

  // struct bhyve_vm_info. The process id is given by its 32 bits, the time of the
  // last boot by its 64.
  datatype Info = Info(
    vmname: Option<text>, os: Option<text>, osversion: Option<text>,
    vmstate: nat, pid: nat, lastboot: nat,
    owner: Option<text>, group: Option<text>, description: Option<text>)

  predicate Sized(v: Info) {
    v.vmstate < 0x1_0000_0000 && v.pid < 0x1_0000_0000 && v.lastboot < 0x1_0000_0000_0000_0000
  }

  const VM_SIZE: nat := 64

  // vminfoitem2nvlist; "pid" has the offset of vmstate, as in the source.
  const VM_TABLE: seq<Mapping> := [
    Mapping(0, DynamicString, 8, "vmname"),
    Mapping(8, DynamicString, 8, "os"),
    Mapping(16, DynamicString, 8, "osversion"),
    Mapping(24, Uint32, 4, "vmstate"),
    Mapping(24, Uint64, 8, "pid"),
    Mapping(32, Uint64, 8, "lastboot"),
    Mapping(40, DynamicString, 8, "owner"),
    Mapping(48, DynamicString, 8, "group"),
    Mapping(56, DynamicString, 8, "description")
  ]

  // The string behind the pointer at an offset.
  function StringOf(v: Info, at: nat): Option<text> {
    if at == 0 then v.vmname
    else if at == 8 then v.os
    else if at == 16 then v.osversion
    else if at == 40 then v.owner
    else if at == 48 then v.group
    else if at == 56 then v.description
    else None
  }

  function Zeros(n: nat): (s: seq<byte>)
    ensures |s| == n
  {
    seq(n, _ => 0)
  }

  // The structure in memory; what is in the pointers themselves does not matter.
  function Layout(v: Info): (mem: Memory)
    ensures |mem.bytes| == VM_SIZE
  {
    Memory(Zeros(24) + ToLe(v.vmstate, 4) + ToLe(v.pid, 4) + ToLe(v.lastboot, 8) + Zeros(24),
           map at: nat | at < VM_SIZE && StringOf(v, at).Some? :: StringOf(v, at).value)
  }

  function StringAt(mem: Memory, at: nat): Option<text> {
    if at in mem.strings then Some(mem.strings[at]) else None
  }

  function View(mem: Memory): Info
    requires |mem.bytes| == VM_SIZE
  {
    Info(StringAt(mem, 0), StringAt(mem, 8), StringAt(mem, 16),
         FromLe(mem.bytes[24..28]), FromLe(mem.bytes[28..32]), FromLe(mem.bytes[32..40]),
         StringAt(mem, 40), StringAt(mem, 48), StringAt(mem, 56))
  }

  lemma Powers()
    ensures Power256(4) == 0x1_0000_0000 && Power256(8) == 0x1_0000_0000_0000_0000
  {
    assert Power256(4) == 256 * (256 * (256 * (256 * Power256(0))));
    assert Power256(8) == 256 * (256 * (256 * (256 * Power256(4))));
  }

  lemma Slices(front: seq<byte>, state: seq<byte>, pid: seq<byte>, boot: seq<byte>, back: seq<byte>)
    requires |front| == |back| == 24 && |state| == |pid| == 4 && |boot| == 8
    ensures var b := front + state + pid + boot + back;
      b[24..28] == state && b[28..32] == pid && b[24..32] == state + pid && b[32..40] == boot
  {
  }

  lemma NumbersOfLayout(v: Info)
    requires Sized(v)
    ensures var b := Layout(v).bytes;
      FromLe(b[24..28]) == v.vmstate && FromLe(b[28..32]) == v.pid && FromLe(b[32..40]) == v.lastboot
  {
    Slices(Zeros(24), ToLe(v.vmstate, 4), ToLe(v.pid, 4), ToLe(v.lastboot, 8), Zeros(24));
    Powers();
    LeOfNumber(v.vmstate, 4);
    LeOfNumber(v.pid, 4);
    LeOfNumber(v.lastboot, 8);
  }

  lemma StringsOfLayout(v: Info)
    ensures var mem := Layout(v);
      StringAt(mem, 0) == v.vmname && StringAt(mem, 8) == v.os && StringAt(mem, 16) == v.osversion &&
      StringAt(mem, 40) == v.owner && StringAt(mem, 48) == v.group && StringAt(mem, 56) == v.description
  {
  }

  lemma ViewOfLayout(v: Info)
    requires Sized(v)
    ensures View(Layout(v)) == v
  {
    NumbersOfLayout(v);
    StringsOfLayout(v);
  }

  lemma VmTableIsSound()
    ensures Sound(VM_TABLE) && AllFitIn(VM_TABLE, VM_SIZE)
  {
    forall i, j | 0 <= i < j < |VM_TABLE| ensures Compatible(VM_TABLE[i], VM_TABLE[j]) {
      assert VM_TABLE[i].varname != VM_TABLE[j].varname;
    }
  }

  lemma Regroup(p: nat, n: nat)
    ensures 256 * (p * n) == (256 * p) * n
  {
  }

  lemma {:induction false} LeOfTwo(a: seq<byte>, b: seq<byte>)
    ensures FromLe(a + b) == FromLe(a) + Power256(|a|) * FromLe(b)
    decreases a
  {
    if a == [] {
      assert a + b == b;
    } else {
      assert (a + b)[1..] == a[1..] + b;
      LeOfTwo(a[1..], b);
      Regroup(Power256(|a| - 1), FromLe(b));
    }
  }

  /** The entry "pid" holds the state in its low 32 bits and the process id in the
      high ones, because the table gives it the offset of vmstate and 64 bits. */
  lemma PidEntryHoldsBoth(v: Info)
    requires Sized(v)
    ensures FitsIn(VM_TABLE[4], VM_SIZE) && VM_TABLE[4].varname == "pid"
    ensures Value(VM_TABLE[4], Layout(v)) == Number(v.vmstate + 0x1_0000_0000 * v.pid)
  {
    var (low, high) := (ToLe(v.vmstate, 4), ToLe(v.pid, 4));
    Slices(Zeros(24), low, high, ToLe(v.lastboot, 8), Zeros(24));
    LeOfTwo(low, high);
    Powers();
    LeOfNumber(v.vmstate, 4);
    LeOfNumber(v.pid, 4);
  }

  lemma StringBack(i: nat, r: Memory, a: Memory)
    requires |r.bytes| == |a.bytes| == VM_SIZE && i < |VM_TABLE| && FitsIn(VM_TABLE[i], VM_SIZE)
    requires VM_TABLE[i].kind == DynamicString && Restored(VM_TABLE[i], r, a)
    ensures StringAt(r, VM_TABLE[i].offset) == StringAt(a, VM_TABLE[i].offset)
  {
  }

  lemma BytesBack(r: Memory, a: Memory)
    requires |r.bytes| == |a.bytes| == VM_SIZE && FitsIn(VM_TABLE[4], VM_SIZE) && FitsIn(VM_TABLE[5], VM_SIZE)
    requires Restored(VM_TABLE[4], r, a) && Restored(VM_TABLE[5], r, a)
    ensures r.bytes[24..28] == a.bytes[24..28] && r.bytes[28..32] == a.bytes[28..32]
    ensures r.bytes[32..40] == a.bytes[32..40]
  {
    assert r.bytes[24..28] == r.bytes[24..32][..4] && r.bytes[28..32] == r.bytes[24..32][4..];
    assert a.bytes[24..28] == a.bytes[24..32][..4] && a.bytes[28..32] == a.bytes[24..32][4..];
  }

  // All fields are back.
  ghost predicate Back(table: seq<Mapping>, r: Memory, a: Memory)
    requires AllFit(table, r) && AllFit(table, a)
  {
    forall i {:trigger Restored(table[i], r, a)} :: 0 <= i < |table| ==> Restored(table[i], r, a)
  }

  lemma ViewOfRestored(r: Memory, a: Memory)
    requires |r.bytes| == |a.bytes| == VM_SIZE && AllFitIn(VM_TABLE, VM_SIZE) && Back(VM_TABLE, r, a)
    ensures View(r) == View(a)
  {
    assert Restored(VM_TABLE[4], r, a) && Restored(VM_TABLE[5], r, a);
    BytesBack(r, a);
    StringBack(0, r, a);
    StringBack(1, r, a);
    StringBack(2, r, a);
    StringBack(6, r, a);
    StringBack(7, r, a);
    StringBack(8, r, a);
  }

  lemma NoFixedStrings(a: Memory)
    requires AllFit(VM_TABLE, a)
    ensures Terminated(VM_TABLE, a)
  {
  }

  /** The description of a machine survives encoding and decoding, NULL strings and the
      overlapping process id included. */
  lemma InfoRoundTrip(v: Info, b: Memory)
    requires Sized(v) && |b.bytes| == VM_SIZE
    ensures AllFit(VM_TABLE, Layout(v)) && AllFit(VM_TABLE, b)
    ensures View(Decode(VM_TABLE, Encode(VM_TABLE, Layout(v), map[]), b)) == v
  {
    VmTableIsSound();
    NoFixedStrings(Layout(v));
    SoundIsSupported(VM_TABLE);
    EncodingDescribes(VM_TABLE, |VM_TABLE|, Layout(v), map[]);
    var r := AllRestored(VM_TABLE, Layout(v), b, Encode(VM_TABLE, Layout(v), map[]));
    ViewOfRestored(r, Layout(v));
    ViewOfLayout(v);
  }

  // The entry of a string.
  ghost function TextEntry(t: Option<text>): NvValue { if t.Some? then Text(t.value) else Null }

  ghost predicate Has(nvl: Nvlist, name: string, v: NvValue) { name in nvl && nvl[name] == v }

  predicate IsInfoName(name: string) {
    name == "vmname" || name == "os" || name == "osversion" || name == "vmstate" || name == "pid" ||
    name == "lastboot" || name == "owner" || name == "group" || name == "description"
  }

  /** The list of a machine, entry by entry. */
  lemma InfoEntries(v: Info)
    requires Sized(v)
    ensures AllFit(VM_TABLE, Layout(v))
    ensures var r := Encode(VM_TABLE, Layout(v), map[]);
      (forall name: string :: name in r <==> IsInfoName(name)) &&
      Has(r, "vmname", TextEntry(v.vmname)) && Has(r, "os", TextEntry(v.os)) &&
      Has(r, "osversion", TextEntry(v.osversion)) && Has(r, "vmstate", Number(v.vmstate)) &&
      Has(r, "pid", Number(v.vmstate + 0x1_0000_0000 * v.pid)) && Has(r, "lastboot", Number(v.lastboot)) &&
      Has(r, "owner", TextEntry(v.owner)) && Has(r, "group", TextEntry(v.group)) &&
      Has(r, "description", TextEntry(v.description))
  {
    VmTableIsSound();
    SoundIsSupported(VM_TABLE);
    EncodingDescribes(VM_TABLE, |VM_TABLE|, Layout(v), map[]);
    hide Encode, Layout, Value, EncodeUpTo, StringOf, Sound, IsInfoName;
    InfoNames(v);
    InfoValues(v);
    var r := EncodeUpTo(VM_TABLE, |VM_TABLE|, Layout(v), map[]);
    assert Entry(r, VM_TABLE[0], Layout(v)) && Entry(r, VM_TABLE[1], Layout(v)) && Entry(r, VM_TABLE[2], Layout(v));
    assert Entry(r, VM_TABLE[3], Layout(v)) && Entry(r, VM_TABLE[4], Layout(v)) && Entry(r, VM_TABLE[5], Layout(v));
    assert Entry(r, VM_TABLE[6], Layout(v)) && Entry(r, VM_TABLE[7], Layout(v)) && Entry(r, VM_TABLE[8], Layout(v));
  }

  lemma InfoNames(v: Info)
    requires AllFit(VM_TABLE, Layout(v)) && Stop(VM_TABLE) == |VM_TABLE|
    ensures Encode(VM_TABLE, Layout(v), map[]) == EncodeUpTo(VM_TABLE, |VM_TABLE|, Layout(v), map[])
    ensures forall name: string :: name in Encode(VM_TABLE, Layout(v), map[]) <==> IsInfoName(name)
  {
    hide EncodeUpTo, Layout, IsInfoName;
    forall name: string ensures name in EncodeUpTo(VM_TABLE, |VM_TABLE|, Layout(v), map[]) <==> IsInfoName(name) {
      EncodedNames(VM_TABLE, |VM_TABLE|, Layout(v), map[], name);
      NameInTable(name);
    }
  }

  lemma NameInTable(name: string)
    ensures (exists i :: 0 <= i < |VM_TABLE| && VM_TABLE[i].varname == name) <==> IsInfoName(name)
  {
    assert VM_TABLE[0].varname == "vmname" && VM_TABLE[1].varname == "os" && VM_TABLE[2].varname == "osversion";
    assert VM_TABLE[3].varname == "vmstate" && VM_TABLE[4].varname == "pid" && VM_TABLE[5].varname == "lastboot";
    assert VM_TABLE[6].varname == "owner" && VM_TABLE[7].varname == "group" && VM_TABLE[8].varname == "description";
  }

  lemma InfoValues(v: Info)
    requires Sized(v) && AllFit(VM_TABLE, Layout(v))
    ensures var a := Layout(v);
      Value(VM_TABLE[0], a) == TextEntry(v.vmname) && Value(VM_TABLE[1], a) == TextEntry(v.os) &&
      Value(VM_TABLE[2], a) == TextEntry(v.osversion) && Value(VM_TABLE[3], a) == Number(v.vmstate) &&
      Value(VM_TABLE[4], a) == Number(v.vmstate + 0x1_0000_0000 * v.pid) &&
      Value(VM_TABLE[5], a) == Number(v.lastboot) && Value(VM_TABLE[6], a) == TextEntry(v.owner) &&
      Value(VM_TABLE[7], a) == TextEntry(v.group) && Value(VM_TABLE[8], a) == TextEntry(v.description)
  {
    PidEntryHoldsBoth(v);
    NumbersOfLayout(v);
    StringsOfLayout(v);
  }

  // ---- all machines ---------------------------------------------------------------------

  // struct bhyve_vm_manager_info; vm_count is 64 bits wide but mapped as 32.
  const MANAGER_SIZE: nat := 24

  // vminfo2nvlist
  const MANAGER_TABLE: seq<Mapping> := [
    Mapping(8, Uint32, 4, "vm_count"),
    Mapping(16, Uint64, 8, "msgcount")
  ]

  function ManagerLayout(count: nat, msgcount: nat): (mem: Memory)
    ensures |mem.bytes| == MANAGER_SIZE
  {
    Memory(Zeros(8) + ToLe(count, 4) + ToLe(count / 0x1_0000_0000, 4) + ToLe(msgcount, 8), map[])
  }

  lemma ManagerTableIsSound()
    ensures Sound(MANAGER_TABLE) && AllFitIn(MANAGER_TABLE, MANAGER_SIZE)
  {
    forall i, j | 0 <= i < j < |MANAGER_TABLE| ensures Compatible(MANAGER_TABLE[i], MANAGER_TABLE[j]) {
      assert MANAGER_TABLE[i].varname != MANAGER_TABLE[j].varname;
    }
  }

  // The number of machines and messages a decoded structure tells.
  function CountOf(mem: Memory): nat
    requires |mem.bytes| == MANAGER_SIZE
  {
    FromLe(mem.bytes[8..16])
  }

  function MessagesOf(mem: Memory): nat
    requires |mem.bytes| == MANAGER_SIZE
  {
    FromLe(mem.bytes[16..24])
  }

  function Blank(n: nat): (mem: Memory)
    ensures |mem.bytes| == n
  {
    Memory(Zeros(n), map[])
  }

  // Decoding the two numbers leaves the bytes between them alone.
  lemma GapStaysBlank(nvl: Nvlist)
    requires AllFitIn(MANAGER_TABLE, MANAGER_SIZE)
    ensures Decode(MANAGER_TABLE, nvl, Blank(MANAGER_SIZE)).bytes[12..16] == [0, 0, 0, 0]
  {
    var first := Get(MANAGER_TABLE[0], nvl, Blank(MANAGER_SIZE));
    assert Stop(MANAGER_TABLE) == 2 by {
      ManagerTableIsSound();
      SoundIsSupported(MANAGER_TABLE);
    }
    assert DecodeUpTo(MANAGER_TABLE, 1, nvl, Blank(MANAGER_SIZE)) == first;
    GetIsLocal(MANAGER_TABLE[0], nvl, Blank(MANAGER_SIZE));
    GetIsLocal(MANAGER_TABLE[1], nvl, first);
  }

  lemma CountFromParts(bytes: seq<byte>, count: nat)
    requires |bytes| == MANAGER_SIZE && bytes[8..12] == ToLe(count, 4) && bytes[12..16] == [0, 0, 0, 0]
    ensures FromLe(bytes[8..16]) == count % 0x1_0000_0000
  {
    assert bytes[8..16] == bytes[8..12] + bytes[12..16];
    LeOfTwo(bytes[8..12], bytes[12..16]);
    LeTruncates(count, 4);
    Powers();
    ZeroOfBlank();
  }

  lemma ZeroOfBlank()
    ensures FromLe([0, 0, 0, 0]) == 0
  {
    var z: seq<byte> := [0, 0, 0, 0];
    assert z[1..] == [0, 0, 0] && z[1..][1..] == [0, 0] && z[1..][1..][1..] == [0];
    assert z[1..][1..][1..][1..] == [];
  }

  lemma ManagerSlices(count: nat, msgcount: nat)
    ensures var b := ManagerLayout(count, msgcount).bytes;
      b[8..12] == ToLe(count, 4) && b[16..24] == ToLe(msgcount, 8)
  {
  }

  lemma NumbersOfManager(r: Memory, a: Memory)
    requires |r.bytes| == |a.bytes| == MANAGER_SIZE && AllFitIn(MANAGER_TABLE, MANAGER_SIZE)
    requires Back(MANAGER_TABLE, r, a)
    ensures r.bytes[8..12] == a.bytes[8..12] && r.bytes[16..24] == a.bytes[16..24]
  {
    assert Restored(MANAGER_TABLE[0], r, a) && Restored(MANAGER_TABLE[1], r, a);
  }

  /** The two numbers of the manager after decoding: the message count as it was, the
      number of machines reduced to 32 bits. */
  lemma ManagerBack(nvl: Nvlist, count: nat, msgcount: nat)
    requires AllFitIn(MANAGER_TABLE, MANAGER_SIZE) && msgcount < 0x1_0000_0000_0000_0000
    requires Describes(nvl, MANAGER_TABLE, ManagerLayout(count, msgcount))
    ensures var r := Decode(MANAGER_TABLE, nvl, Blank(MANAGER_SIZE));
      CountOf(r) == count % 0x1_0000_0000 && MessagesOf(r) == msgcount
  {
    ManagerTableIsSound();
    var a := ManagerLayout(count, msgcount);
    assert Terminated(MANAGER_TABLE, a);
    var r := AllRestored(MANAGER_TABLE, a, Blank(MANAGER_SIZE), nvl);
    NumbersOfManager(r, a);
    ManagerSlices(count, msgcount);
    GapStaysBlank(nvl);
    CountFromParts(r.bytes, count);
    Powers();
    LeOfNumber(msgcount, 8);
  }

  /** The two numbers of the manager, entry by entry. */
  lemma ManagerEntries(count: nat, msgcount: nat)
    requires msgcount < 0x1_0000_0000_0000_0000
    ensures AllFit(MANAGER_TABLE, ManagerLayout(count, msgcount))
    ensures Encode(MANAGER_TABLE, ManagerLayout(count, msgcount), map[]) ==
      map["vm_count" := Number(count % 0x1_0000_0000), "msgcount" := Number(msgcount)]
  {
    ManagerTableIsSound();
    SoundIsSupported(MANAGER_TABLE);
    var a := ManagerLayout(count, msgcount);
    ManagerSlices(count, msgcount);
    LeTruncates(count, 4);
    Powers();
    LeOfNumber(msgcount, 8);
    assert EncodeUpTo(MANAGER_TABLE, 1, a, map[]) == Put(MANAGER_TABLE[0], a, map[]);
  }
}
