/** The status command end to end: the list of machines is encoded, packed, collected,
    sent with its length in front, read back in pieces and decoded to the same list.
  */
module StatusReply {
  import opened Wrappers
  import opened Sockets
  import opened NvMapping
  import opened TransmitCollecting
  import opened Replies
  import opened VmInfo

  // nvlist_pack and nvlist_unpack of the system library.
  type Packer = Nvlist -> seq<byte>
  type Unpacker = seq<byte> -> Option<Nvlist>

  ghost predicate Inverse(pack: Packer, unpack: Unpacker) {
    forall n: Nvlist :: pack(n) != [] && unpack(pack(n)) == Some(n)
  }

  lemma Tables()
    ensures AllFitIn(VM_TABLE, VM_SIZE) && AllFitIn(MANAGER_TABLE, MANAGER_SIZE)
  {
    VmTableIsSound();
    ManagerTableIsSound();
  }

  function InfoList(v: Info): Nvlist
    requires AllFitIn(VM_TABLE, VM_SIZE)
  {
    Encode(VM_TABLE, Layout(v), map[])
  }

  // The lists of all machines, packed.
  function Parts(infos: seq<Info>, pack: Packer): (parts: seq<seq<byte>>)
    requires AllFitIn(VM_TABLE, VM_SIZE)
    ensures |parts| == |infos|
    ensures forall i :: 0 <= i < |infos| ==> parts[i] == pack(InfoList(infos[i]))
  {
    seq(|infos|, i requires 0 <= i < |infos| => pack(InfoList(infos[i])))
  }

  function ManagerNumbers(count: nat, msgcount: nat): Nvlist
    requires AllFitIn(MANAGER_TABLE, MANAGER_SIZE)
  {
    Encode(MANAGER_TABLE, ManagerLayout(count, msgcount), map[])
  }

  // The whole list: two numbers, all machines packed into one blob, and their lengths.
  function ManagerList(infos: seq<Info>, msgcount: nat, pack: Packer): Nvlist
    requires AllFitIn(VM_TABLE, VM_SIZE) && AllFitIn(MANAGER_TABLE, MANAGER_SIZE)
  {
    var parts := Parts(infos, pack);
    ManagerNumbers(|infos|, msgcount)["vm_infos" := Binary(Concat(parts))]
      ["vm_infos.lengths" := Numbers(Lengths(parts))]
  }

  // bvmmi_encodenvlist
  method EncodeManager(infos: seq<Info>, msgcount: nat, pack: Packer) returns (rc: int, nvl: Nvlist)
    requires forall n: Nvlist :: pack(n) != []
    ensures AllFitIn(VM_TABLE, VM_SIZE) && AllFitIn(MANAGER_TABLE, MANAGER_SIZE)
    ensures rc == if infos == [] then -1 else 0
    ensures rc == 0 ==> nvl == ManagerList(infos, msgcount, pack)
  {
    hide InfoList, ManagerNumbers;
    Tables();
    nvl := EncodeNumbers(|infos|, msgcount);
    var stc := CollectInfos(infos, pack);
    var outsize := stc.GetBufferSize();
    var buffer := new byte[outsize];
    var lengths := new nat[|infos|];
    NoPartIsEmpty(infos, pack);
    rc := stc.Collect(buffer, lengths);
    if rc != 0 { return -1, nvl; }
    assert buffer[..] == Concat(stc.items) && lengths[..] == Lengths(stc.items);
    nvl := nvl["vm_infos" := Binary(buffer[..])]["vm_infos.lengths" := Numbers(lengths[..])];
  }

  method EncodeNumbers(count: nat, msgcount: nat) returns (nvl: Nvlist)
    requires AllFitIn(MANAGER_TABLE, MANAGER_SIZE)
    ensures nvl == ManagerNumbers(count, msgcount)
  {
    var _, list := EncodeNvlist(MANAGER_TABLE, ManagerLayout(count, msgcount), map[]);
    nvl := list;
  }

  lemma NoPartIsEmpty(infos: seq<Info>, pack: Packer)
    requires AllFitIn(VM_TABLE, VM_SIZE) && forall n: Nvlist :: pack(n) != []
    ensures infos != [] ==> Concat(Parts(infos, pack)) != []
  {
  }

  // bvmi_encodenvlist
  method EncodeInfo(v: Info) returns (nvl: Nvlist)
    requires AllFitIn(VM_TABLE, VM_SIZE)
    ensures nvl == InfoList(v)
  {
    var _, list := EncodeNvlist(VM_TABLE, Layout(v), map[]);
    nvl := list;
  }

  // The loop over the machines.
  method CollectInfos(infos: seq<Info>, pack: Packer) returns (stc: TransmitCollector)
    requires AllFitIn(VM_TABLE, VM_SIZE) && forall n: Nvlist :: pack(n) != []
    ensures fresh(stc) && stc.Valid() && stc.items == Parts(infos, pack)
  {
    hide InfoList;
    stc := new TransmitCollector();
    for counter := 0 to |infos|
      invariant stc.Valid() && stc.items == Parts(infos, pack)[..counter]
    {
      var itemnvl := EncodeInfo(infos[counter]);
      var _ := stc.StoreTransmit(pack(itemnvl));
    }
  }

  // `Halted` stands for an assertion of the decoder that fails.
  datatype Decoded = Status(infos: seq<Info>, msgcount: nat) | Error | Halted

  lemma {:induction false} PartAt(parts: seq<seq<byte>>, i: nat)
    requires i < |parts|
    ensures var at := |Concat(parts[..i])|;
      at + |parts[i]| <= |Concat(parts)| && Concat(parts)[at..at + |parts[i]|] == parts[i]
    decreases i
  {
    if i == 0 {
      assert parts[..0] == [];
    } else {
      PartAt(parts[1..], i - 1);
      assert parts[..i][1..] == parts[1..][..i - 1];
    }
  }

  // What the list of a manager holds, as the decoder needs it.
  ghost predicate Carries(nvl: Nvlist, infos: seq<Info>, msgcount: nat, parts: seq<seq<byte>>)
    requires AllFitIn(MANAGER_TABLE, MANAGER_SIZE)
  {
    Describes(nvl, MANAGER_TABLE, ManagerLayout(|infos|, msgcount)) &&
    "vm_infos" in nvl && nvl["vm_infos"] == Binary(Concat(parts)) &&
    "vm_infos.lengths" in nvl && nvl["vm_infos.lengths"] == Numbers(Lengths(parts)) &&
    |parts| == |infos|
  }

  lemma NamesAreNew(name: string)
    requires name == "vm_infos" || name == "vm_infos.lengths"
    ensures forall i :: 0 <= i < |MANAGER_TABLE| ==> MANAGER_TABLE[i].varname != name
  {
  }

  lemma ListCarries(infos: seq<Info>, msgcount: nat, pack: Packer)
    requires AllFitIn(VM_TABLE, VM_SIZE) && AllFitIn(MANAGER_TABLE, MANAGER_SIZE)
    ensures Carries(ManagerList(infos, msgcount, pack), infos, msgcount, Parts(infos, pack))
  {
    var a := ManagerLayout(|infos|, msgcount);
    var parts := Parts(infos, pack);
    var nvl := ManagerNumbers(|infos|, msgcount);
    ManagerTableIsSound();
    SoundIsSupported(MANAGER_TABLE);
    EncodingDescribes(MANAGER_TABLE, |MANAGER_TABLE|, a, map[]);
    NamesAreNew("vm_infos");
    DescribesMore(nvl, MANAGER_TABLE, a, "vm_infos", Binary(Concat(parts)));
    NamesAreNew("vm_infos.lengths");
    DescribesMore(nvl["vm_infos" := Binary(Concat(parts))], MANAGER_TABLE, a, "vm_infos.lengths",
                  Numbers(Lengths(parts)));
  }

  ghost predicate AllSized(infos: seq<Info>) { forall i :: 0 <= i < |infos| ==> Sized(infos[i]) }

  // The list was made from these machines by the encoder.
  ghost predicate Genuine(nvl: Nvlist, infos: seq<Info>, msgcount: nat, pack: Packer, unpack: Unpacker)
    requires AllFitIn(VM_TABLE, VM_SIZE) && AllFitIn(MANAGER_TABLE, MANAGER_SIZE)
  {
    Carries(nvl, infos, msgcount, Parts(infos, pack)) && Inverse(pack, unpack) && AllSized(infos) &&
    msgcount < 0x1_0000_0000_0000_0000
  }

  // The two numbers of the list.
  method DecodeNumbers(nvl: Nvlist, ghost count: nat, ghost msgcount: nat) returns (vmCount: nat, messages: nat)
    requires AllFitIn(MANAGER_TABLE, MANAGER_SIZE)
    ensures msgcount < 0x1_0000_0000_0000_0000 && Describes(nvl, MANAGER_TABLE, ManagerLayout(count, msgcount)) ==>
      vmCount == count % 0x1_0000_0000 && messages == msgcount
  {
    var _, mem := DecodeNvlist(MANAGER_TABLE, nvl, Blank(MANAGER_SIZE));
    if msgcount < 0x1_0000_0000_0000_0000 && Describes(nvl, MANAGER_TABLE, ManagerLayout(count, msgcount)) {
      ManagerBack(nvl, count, msgcount);
    }
    return CountOf(mem), MessagesOf(mem);
  }

  // bvmmi_decodenvlist
  method DecodeManager(nvl: Nvlist, unpack: Unpacker, ghost infos: seq<Info>, ghost msgcount: nat,
                       ghost pack: Packer) returns (r: Decoded)
    requires AllFitIn(VM_TABLE, VM_SIZE) && AllFitIn(MANAGER_TABLE, MANAGER_SIZE)
    ensures Genuine(nvl, infos, msgcount, pack, unpack) ==>
      r == if |infos| < 0x1_0000_0000 then Status(infos, msgcount) else Halted
  {
    hide InfoList;
    ghost var expected := Genuine(nvl, infos, msgcount, pack, unpack);
    var vmCount, messages := DecodeNumbers(nvl, |infos|, msgcount);
    if "vm_infos.lengths" !in nvl || !nvl["vm_infos.lengths"].Numbers? { return Error; }
    var lengths := nvl["vm_infos.lengths"].numbers;
    if |lengths| != vmCount { return Halted; }
    if "vm_infos" !in nvl || !nvl["vm_infos"].Binary? { return Halted; }
    var buffer := nvl["vm_infos"].bytes;
    var total := Total(lengths);
    if expected { CutRestores(Parts(infos, pack)); }
    if total != |buffer| { return Halted; }
    var list := DecodeInfos(buffer, lengths, unpack, infos, pack);
    r := match list case None => Error case Some(l) => Status(l, messages);
  }

  lemma SumSplits(lengths: seq<nat>, i: nat)
    requires i < |lengths|
    ensures Sum(lengths[i..]) == lengths[i] + Sum(lengths[i + 1..])
  {
    assert lengths[i..][1..] == lengths[i + 1..];
  }

  // The loop that cross checks the lengths.
  method Total(lengths: seq<nat>) returns (total: nat)
    ensures total == Sum(lengths)
  {
    total := 0;
    for counter := 0 to |lengths|
      invariant Sum(lengths) == total + Sum(lengths[counter..])
    {
      SumSplits(lengths, counter);
      total := total + lengths[counter];
    }
  }

  ghost predicate IsPacked(buffer: seq<byte>, lengths: seq<nat>, infos: seq<Info>, pack: Packer, unpack: Unpacker)
    requires AllFitIn(VM_TABLE, VM_SIZE)
  {
    buffer == Concat(Parts(infos, pack)) && lengths == Lengths(Parts(infos, pack)) &&
    Inverse(pack, unpack) && AllSized(infos)
  }

  // Unpacking and decoding one machine.
  method DecodeInfo(packed: seq<byte>, unpack: Unpacker, ghost v: Info, ghost pack: Packer)
    returns (r: Option<Info>)
    requires AllFitIn(VM_TABLE, VM_SIZE)
    ensures Inverse(pack, unpack) && Sized(v) && packed == pack(InfoList(v)) ==> r == Some(v)
  {
    VmTableIsSound();
    SoundIsSupported(VM_TABLE);
    var itemnvl := unpack(packed);
    if itemnvl.None? { return None; }
    var rc, bvi := DecodeNvlist(VM_TABLE, itemnvl.value, Blank(VM_SIZE));
    if Sized(v) { InfoRoundTrip(v, Blank(VM_SIZE)); }
    if rc != 0 { return None; }
    return Some(View(bvi));
  }

  lemma PackedAt(buffer: seq<byte>, lengths: seq<nat>, infos: seq<Info>, pack: Packer, unpack: Unpacker, i: nat)
    requires AllFitIn(VM_TABLE, VM_SIZE) && IsPacked(buffer, lengths, infos, pack, unpack) && i < |lengths|
    ensures |lengths| == |infos| && Sized(infos[i])
    ensures var at := |Concat(Parts(infos, pack)[..i])|;
      at + lengths[i] <= |buffer| && buffer[at..at + lengths[i]] == pack(InfoList(infos[i])) &&
      |Concat(Parts(infos, pack)[..i + 1])| == at + lengths[i]
  {
    hide InfoList;
    PieceAt(Parts(infos, pack), buffer, lengths, i);
  }

  lemma PieceAt(parts: seq<seq<byte>>, buffer: seq<byte>, lengths: seq<nat>, i: nat)
    requires buffer == Concat(parts) && lengths == Lengths(parts) && i < |lengths|
    ensures var at := |Concat(parts[..i])|;
      at + lengths[i] <= |buffer| && buffer[at..at + lengths[i]] == parts[i] &&
      |Concat(parts[..i + 1])| == at + lengths[i]
  {
    PartAt(parts, i);
    ConcatSplit(parts, i);
  }

  method DecodeNext(buffer: seq<byte>, lengths: seq<nat>, unpack: Unpacker, i: nat, offset: nat,
                    ghost infos: seq<Info>, ghost pack: Packer) returns (r: Option<Info>)
    requires AllFitIn(VM_TABLE, VM_SIZE) && i < |lengths| && offset + lengths[i] <= |buffer|
    ensures IsPacked(buffer, lengths, infos, pack, unpack) && offset == |Concat(Parts(infos, pack)[..i])| ==>
      |lengths| == |infos| && r == Some(infos[i]) &&
      offset + lengths[i] == |Concat(Parts(infos, pack)[..i + 1])|
  {
    hide InfoList;
    if IsPacked(buffer, lengths, infos, pack, unpack) { PackedAt(buffer, lengths, infos, pack, unpack, i); }
    r := DecodeInfo(buffer[offset..offset + lengths[i]], unpack,
                    if i < |infos| then infos[i] else NOTHING, pack);
  }

  lemma PackedStart(infos: seq<Info>, pack: Packer)
    requires AllFitIn(VM_TABLE, VM_SIZE)
    ensures |Concat(Parts(infos, pack)[..0])| == 0 && |Lengths(Parts(infos, pack))| == |infos|
  {
    assert Parts(infos, pack)[..0] == [];
  }

  // The loop that unpacks and decodes the machines.
  method DecodeInfos(buffer: seq<byte>, lengths: seq<nat>, unpack: Unpacker, ghost infos: seq<Info>,
                     ghost pack: Packer) returns (list: Option<seq<Info>>)
    requires AllFitIn(VM_TABLE, VM_SIZE) && Sum(lengths) == |buffer|
    ensures IsPacked(buffer, lengths, infos, pack, unpack) ==> list == Some(infos)
  {
    hide InfoList;
    ghost var expected := IsPacked(buffer, lengths, infos, pack, unpack);
    var offset := 0;
    var got: seq<Info> := [];
    PackedStart(infos, pack);
    assert lengths[0..] == lengths;
    for counter := 0 to |lengths|
      invariant 0 <= offset && offset + Sum(lengths[counter..]) == |buffer|
      invariant expected ==>
        |lengths| == |infos| && offset == |Concat(Parts(infos, pack)[..counter])| && got == infos[..counter]
    {
      SumSplits(lengths, counter);
      var bvi := DecodeNext(buffer, lengths, unpack, counter, offset, infos, pack);
      if bvi.None? { return None; }
      got := got + [bvi.value];
      offset := offset + lengths[counter];
    }
    assert expected ==> infos[..|lengths|] == infos;
    list := Some(got);
  }

  ghost const NOTHING: Info := Info(None, None, None, 0, 0, 0, None, None, None)

  // ---- the exchange ---------------------------------------------------------------------

  // bvmmi_encodebinary
  method EncodeBinary(infos: seq<Info>, msgcount: nat, pack: Packer) returns (rc: int, blob: seq<byte>)
    requires forall n: Nvlist :: pack(n) != []
    ensures AllFitIn(VM_TABLE, VM_SIZE) && AllFitIn(MANAGER_TABLE, MANAGER_SIZE)
    ensures rc == if infos == [] then -1 else 0
    ensures rc == 0 ==> blob == pack(ManagerList(infos, msgcount, pack))
  {
    hide InfoList, ManagerNumbers;
    var nvl;
    rc, nvl := EncodeManager(infos, msgcount, pack);
    blob := if rc == 0 then pack(nvl) else [];
  }

  // bvmmi_decodebinary
  method DecodeBinary(blob: seq<byte>, unpack: Unpacker, ghost infos: seq<Info>, ghost msgcount: nat,
                      ghost pack: Packer) returns (r: Decoded)
    requires AllFitIn(VM_TABLE, VM_SIZE) && AllFitIn(MANAGER_TABLE, MANAGER_SIZE)
    requires Inverse(pack, unpack) && AllSized(infos) && msgcount < 0x1_0000_0000_0000_0000
    ensures blob == pack(ManagerList(infos, msgcount, pack)) ==>
      r == if |infos| < 0x1_0000_0000 then Status(infos, msgcount) else Halted
  {
    hide InfoList, ManagerNumbers;
    var nvl := unpack(blob);
    if nvl.None? { return Error; }
    ListCarries(infos, msgcount, pack);
    r := DecodeManager(nvl.value, unpack, infos, msgcount, pack);
  }

  lemma NokIsNoBlob(wire: seq<byte>)
    requires wire == GenericText(-1) + [0]
    ensures |wire| >= 4 && wire[..4] != DATA
  {
    hide ShortText;
    CodeIsRead(-1, NOK_TEXT);
    assert wire[..4] == GenericText(-1)[..4];
  }

  /** The daemon answers the first status command of a connection and the client reads
      the answer, both with any number of bytes a call: for fewer than 2^32 machines the
      client ends with the list the daemon had exactly when there is a machine and its
      reply buffer has room for the header and one byte more. */
  method StatusCommand(infos: seq<Info>, msgcount: nat, pack: Packer, unpack: Unpacker,
                       sending: nat -> nat, receiving: nat -> nat, retbuffer: array<byte>)
    returns (r: Decoded, ghost blob: seq<byte>)
    requires Inverse(pack, unpack) && Flows(sending) && Flows(receiving) && AllSized(infos)
    requires |infos| < 0x1_0000_0000 && msgcount < 0x1_0000_0000_0000_0000 && retbuffer.Length > 4
    modifies retbuffer
    ensures AllFitIn(VM_TABLE, VM_SIZE) && AllFitIn(MANAGER_TABLE, MANAGER_SIZE)
    ensures blob == pack(ManagerList(infos, msgcount, pack))
    ensures r == if infos != [] && |Header(|blob|)| < retbuffer.Length then Status(infos, msgcount) else Error
  {
    hide InfoList, ManagerNumbers;
    var _, wire := Answer(infos, msgcount, pack, sending);
    blob := pack(ManagerList(infos, msgcount, pack));
    var socket := new Reader(receiving, wire);
    if infos == [] { NokIsNoBlob(wire); } else { assert wire == Reply(blob) + []; }
    var received := ReceiveReply(socket, retbuffer, blob, []);
    if !received.Blob? { return Error, blob; }
    r := DecodeBinary(received.bytes, unpack, infos, msgcount, pack);
  }

  // The daemon's side: encode, collect, send. Without a machine the command fails and the
  // client gets its code.
  method Answer(infos: seq<Info>, msgcount: nat, pack: Packer, sending: nat -> nat)
    returns (rc: int, wire: seq<byte>)
    requires Flows(sending) && forall n: Nvlist :: pack(n) != []
    ensures AllFitIn(VM_TABLE, VM_SIZE) && AllFitIn(MANAGER_TABLE, MANAGER_SIZE)
    ensures rc == if infos == [] then -1 else 0
    ensures wire == if infos == [] then GenericText(-1) + [0] else Reply(pack(ManagerList(infos, msgcount, pack)))
  {
    hide InfoList, ManagerNumbers, GenericText;
    var encoded;
    rc, encoded := EncodeBinary(infos, msgcount, pack);
    var src := new ReplyCollector();
    if rc == 0 {
      var _ := src.AddReply(encoded);
      assert Concat(src.stc.items) == encoded;
    }
    var socket := new Writer(sending);
    var has := src.HasReply();
    if has {
      var _, _ := ReplyData(socket, src);
    } else {
      var _ := ReplyGenericMsg(socket, rc);
    }
    wire := socket.sent;
  }
}
