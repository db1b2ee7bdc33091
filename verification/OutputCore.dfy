/** The generated settings of a virtual machine: key-value lines put in front of each
    other and written behind a base file, and what a reader that takes the last line
    of a key finds in the result.
  */
module OutputCore {
  import opened Wrappers
  import opened Texts
  import opened CoreParameters

  datatype Setting = Setting(key: string, value: string)

  // ---- the settings, in the order in which they are added ----------------------------

  // printf %d of a 32 bit number
  function Signed(n: nat): string
    requires n < 0x1_0000_0000
  {
    if n < 0x8000_0000 then Decimal(n) else "-" + Decimal(0x1_0000_0000 - n)
  }

  function BoolText(b: bool): (s: string)
    ensures (s == "true" <==> b) && (s == "false" <==> !b)
  {
    if b then "true" else "false"
  }

  function If(b: bool, s: Setting): seq<Setting> { if b then [s] else [] }

  function BootromText(b: Bootrom): string {
    b.bootrom + (if b.withVars then "," else "") + b.varsfile
  }

  // The cores are written under the key of the sockets, as in the source.
  function Numbers(p: Params): seq<Setting>
    requires p.memory < 0x1_0000_0000
  {
    [Setting("name", p.vmname)] +
    If(p.memory > 0, Setting("memory.size", Signed(p.memory) + "M")) +
    If(p.numcpus != 0, Setting("cpus", Decimal(p.numcpus))) +
    If(p.sockets != 0, Setting("sockets", Decimal(p.sockets))) +
    If(p.cores != 0, Setting("sockets", Decimal(p.cores)))
  }

  function CoreSettings(p: Params): seq<Setting>
    requires p.memory < 0x1_0000_0000
  {
    Numbers(p) +
    [Setting("x86.vmexit_on_hlt", BoolText(p.yieldOnHlt)),
     Setting("acpi_tables", BoolText(p.acpiTables)),
     Setting("lpc.bootrom", BootromText(p.bootrom))]
  }

  function ComKey(i: nat): string { "lpc.com" + Decimal(i + 1) + ".path" }

  function ConsoleSettings(ports: seq<Comport>, n: nat): seq<Setting>
    requires n <= |ports|
  {
    if n == 0 then []
    else ConsoleSettings(ports, n - 1) + If(ports[n - 1].enabled, Setting(ComKey(n - 1), ports[n - 1].backend))
  }

  function SlotKey(s: Slot): string {
    "pci." + Decimal(s.bus) + "." + Decimal(s.pcislot) + "." + Decimal(s.func) + ".device"
  }

  // None for a slot that cannot be written.
  function SlotSetting(s: Slot): Option<Setting> {
    match s.kind
    case TypeIsaBridge => Some(Setting(SlotKey(s), "lpc"))
    case TypeHostbridge(b) => Some(Setting(SlotKey(s), if b == Amd then "amd_hostbridge" else "hostbridge"))
    case _ => None
  }

  function SlotSettings(slots: seq<Slot>): seq<Setting> {
    if slots == [] || SlotSetting(slots[0]).None? then []
    else [SlotSetting(slots[0]).value] + SlotSettings(slots[1..])
  }

  predicate Writable(slots: seq<Slot>) {
    slots == [] || (SlotSetting(slots[0]).Some? && Writable(slots[1..]))
  }

  /** All slots can be written exactly when they are host bridges and ISA bridges. */
  lemma {:induction false} WritableExactly(slots: seq<Slot>)
    ensures Writable(slots) <==>
      forall i :: 0 <= i < |slots| ==> slots[i].kind.TypeHostbridge? || slots[i].kind.TypeIsaBridge?
    decreases |slots|
  {
    if slots != [] {
      WritableExactly(slots[1..]);
      assert forall i :: 0 <= i < |slots| - 1 ==> slots[1..][i] == slots[i + 1];
      if forall i :: 0 <= i < |slots| - 1 ==> slots[1..][i].kind.TypeHostbridge? || slots[1..][i].kind.TypeIsaBridge? {
        assert forall i :: 1 <= i < |slots| ==> slots[i] == slots[1..][i - 1];
      }
    }
  }

  // All settings of a machine whose slots can be written.
  function Settings(p: Params): seq<Setting>
    requires p.memory < 0x1_0000_0000
  {
    CoreSettings(p) + ConsoleSettings(p.comports, |p.comports|) + SlotSettings(p.pcislots)
  }

  // ---- the object that builds the lines -----------------------------------------------------

  function LineOf(s: Setting): string { s.key + "=" + s.value }

  // The list of lines after the settings were added one by one at its head.
  function Stacked(settings: seq<Setting>): seq<string> {
    if settings == [] then []
    else [LineOf(settings[|settings| - 1])] + Stacked(settings[..|settings| - 1])
  }

  lemma StackedGrows(settings: seq<Setting>, s: Setting)
    ensures Stacked(settings + [s]) == [LineOf(s)] + Stacked(settings)
  {
    assert (settings + [s])[..|settings|] == settings;
  }

  lemma NoSlots()
    ensures SlotSettings([]) == [] && Writable([])
  {
  }

  lemma NextSlot(slots: seq<Slot>, before: seq<Setting>)
    requires slots != []
    ensures SlotSetting(slots[0]).None? ==> before + SlotSettings(slots) == before && !Writable(slots)
    ensures SlotSetting(slots[0]).Some? ==>
      before + SlotSettings(slots) == before + [SlotSetting(slots[0]).value] + SlotSettings(slots[1..]) &&
      Writable(slots) == Writable(slots[1..])
  {
  }

  function Joined(lines: seq<string>): string {
    if lines == [] then "" else lines[0] + "\n" + Joined(lines[1..])
  }

  function Combined(base: string, lines: seq<string>): string { base + "\n" + Joined(lines) }

  // ---- writing the file ---------------------------------------------------------------

  // What the file system answers: the text of the base file, whether the file to write can
  // be opened and given its mode, and how many bytes the k-th write takes, -1 when it fails.
  datatype Files = Files(base: Option<string>, opens: bool, chmods: bool, taking: nat -> int)

  function LinePieces(lines: seq<string>): seq<string> {
    if lines == [] then [] else [lines[0], "\n"] + LinePieces(lines[1..])
  }

  // The texts of all writes, one after the other.
  function Pieces(base: string, lines: seq<string>): seq<string> { [base, "\n"] + LinePieces(lines) }

  // The part of a text that a write takes.
  function Part(text: string, n: int): string {
    if n < 0 then "" else if n < |text| then text[..n] else text
  }

  // The result of a write is compared with the length of the text as an unsigned number, so
  // only short writes are noticed; for an end of line only failures are.
  predicate Noticed(isText: bool, text: string, n: int) { if isText then 0 <= n < |text| else n < 0 }

  // What writes number k, k + 1, ... leave in the file, and whether none of them was noticed.
  function Written(pieces: seq<string>, taking: nat -> int, k: nat, isText: bool): (string, bool)
    decreases pieces
  {
    if pieces == [] then ("", true)
    else
      var w := Part(pieces[0], taking(k));
      if Noticed(isText, pieces[0], taking(k)) then (w, false)
      else
        var (later, ok) := Written(pieces[1..], taking, k + 1, !isText);
        (w + later, ok)
  }

  // Every write takes its whole text.
  predicate AllTaken(pieces: seq<string>, taking: nat -> int, k: nat) {
    forall i :: 0 <= i < |pieces| ==> pieces[i] == "" || taking(k + i) >= |pieces[i]|
  }

  function Flat(pieces: seq<string>): string { if pieces == [] then "" else pieces[0] + Flat(pieces[1..]) }

  lemma FlatPieces(base: string, lines: seq<string>)
    ensures Flat(Pieces(base, lines)) == Combined(base, lines)
  {
    FlatLines(lines);
    assert Pieces(base, lines)[1..] == ["\n"] + LinePieces(lines);
    assert (["\n"] + LinePieces(lines))[1..] == LinePieces(lines);
  }

  lemma {:induction false} FlatLines(lines: seq<string>)
    ensures Flat(LinePieces(lines)) == Joined(lines)
    decreases |lines|
  {
    if lines != [] {
      var later := LinePieces(lines[1..]);
      FlatLines(lines[1..]);
      assert LinePieces(lines)[1..] == ["\n"] + later && (["\n"] + later)[1..] == later;
    }
  }

  /** The file is written as a whole and success is reported if and only if every write
      takes its whole text. */
  lemma {:induction false} WrittenExactly(pieces: seq<string>, taking: nat -> int, k: nat, isText: bool)
    requires forall i :: 0 <= i < |pieces| && (isText <==> i % 2 == 1) ==> pieces[i] == "\n"
    ensures Written(pieces, taking, k, isText) == (Flat(pieces), true) <==> AllTaken(pieces, taking, k)
    ensures |Written(pieces, taking, k, isText).0| <= |Flat(pieces)|
    decreases |pieces|
  {
    if pieces != [] {
      var (piece, later) := (pieces[0], pieces[1..]);
      assert forall i :: 0 <= i < |later| ==> later[i] == pieces[i + 1];
      WrittenExactly(later, taking, k + 1, !isText);
      var first := piece == "" || taking(k) >= |piece|;
      assert AllTaken(pieces, taking, k) <==> first && AllTaken(later, taking, k + 1) by {
        if AllTaken(pieces, taking, k) {
          forall i | 0 <= i < |later| ensures later[i] == "" || taking(k + 1 + i) >= |later[i]| {
            assert later[i] == pieces[i + 1];
          }
          assert pieces[0] == piece;
        }
        if first && AllTaken(later, taking, k + 1) {
          forall i | 0 <= i < |pieces| ensures pieces[i] == "" || taking(k + i) >= |pieces[i]| {
            if i > 0 { assert pieces[i] == later[i - 1] && taking(k + i) == taking(k + 1 + (i - 1)); }
          }
        }
      }
      var w := Part(piece, taking(k));
      var (t, ok) := Written(later, taking, k + 1, !isText);
      if !Noticed(isText, piece, taking(k)) && w + t == piece + Flat(later) {
        assert |w| == |piece| && |t| == |Flat(later)|;
        assert w == (w + t)[..|w|] && t == (w + t)[|w|..];
      }
    }
  }

  // A write of a text is not short, or failed; a write of an end of line has not failed.
  predicate Passes(isText: bool, text: string, n: int) { if isText then n < 0 || n >= |text| else n >= 0 }

  ghost predicate AllPass(pieces: seq<string>, taking: nat -> int, k: nat, isText: bool) {
    forall i {:trigger pieces[i]} :: 0 <= i < |pieces| ==> Passes(isText <==> i % 2 == 0, pieces[i], taking(k + i))
  }

  lemma FirstPasses(pieces: seq<string>, taking: nat -> int, k: nat, isText: bool)
    requires pieces != []
    ensures AllPass(pieces, taking, k, isText) <==>
      Passes(isText, pieces[0], taking(k)) && AllPass(pieces[1..], taking, k + 1, !isText)
  {
    hide Passes;
    var later := pieces[1..];
    if AllPass(pieces, taking, k, isText) {
      assert pieces[0] == pieces[0] && taking(k + 0) == taking(k);
      forall i | 0 <= i < |later| ensures Passes(!isText <==> i % 2 == 0, later[i], taking(k + 1 + i)) {
        assert later[i] == pieces[i + 1] && k + 1 + i == k + (i + 1);
      }
    }
    if Passes(isText, pieces[0], taking(k)) && AllPass(later, taking, k + 1, !isText) {
      forall i | 0 <= i < |pieces| ensures Passes(isText <==> i % 2 == 0, pieces[i], taking(k + i)) {
        if i > 0 { assert pieces[i] == later[i - 1] && k + i == k + 1 + (i - 1); } else { assert k + i == k; }
      }
    }
  }

  /** Success is reported if and only if no text was written short and no end of line failed. */
  lemma {:induction false} SuccessExactly(pieces: seq<string>, taking: nat -> int, k: nat, isText: bool)
    ensures Written(pieces, taking, k, isText).1 <==> AllPass(pieces, taking, k, isText)
    decreases |pieces|
  {
    hide AllPass;
    if pieces == [] {
      NothingFails(taking, k, isText);
    } else {
      SuccessExactly(pieces[1..], taking, k + 1, !isText);
      FirstPasses(pieces, taking, k, isText);
    }
  }

  lemma NothingFails(taking: nat -> int, k: nat, isText: bool)
    ensures AllPass([], taking, k, isText)
  {
  }

  /** While every write takes something, the file holds a front of the whole text. */
  lemma {:induction false} WrittenIsFront(pieces: seq<string>, taking: nat -> int, k: nat, isText: bool)
    requires forall i: nat :: taking(i) > 0
    requires forall i :: 0 <= i < |pieces| && (isText <==> i % 2 == 1) ==> pieces[i] == "\n"
    ensures Written(pieces, taking, k, isText).0 <= Flat(pieces)
    decreases |pieces|
  {
    if pieces != [] && !Noticed(isText, pieces[0], taking(k)) {
      assert forall i :: 0 <= i < |pieces[1..]| ==> pieces[1..][i] == pieces[i + 1];
      WrittenIsFront(pieces[1..], taking, k + 1, !isText);
    }
  }

  /** A failed write of a text is not noticed: the file lacks the text and 0 is returned. */
  lemma LostWrite(taking: nat -> int)
    requires taking(0) == -1 && taking(1) == 1
    ensures Written(Pieces("a", []), taking, 0, true) == ("\n", true) && "\n" != Combined("a", [])
  {
    assert Pieces("a", []) == ["a", "\n"];
    assert Written([], taking, 2, true) == ("", true);
    assert ["a", "\n"][1..] == ["\n"] && ["\n"][1..] == [];
    assert Written(["\n"], taking, 1, false) == ("\n" + "", true) && "\n" + "" == "\n" == "" + "\n";
    assert |Combined("a", [])| == 2;
  }

  class Output {
    const bpc: Core
    var lines: seq<string>
    ghost var added: seq<Setting>

    ghost predicate Valid()
      reads this
    {
      lines == Stacked(added)
    }

    constructor (bpc: Core)
      ensures this.bpc == bpc && Valid() && added == []
    {
      this.bpc := bpc;
      lines := [];
      added := [];
    }

    // obc_add
    method Add(key: string, value: string)
      requires Valid()
      modifies this
      ensures Valid() && added == old(added) + [Setting(key, value)]
    {
      StackedGrows(added, Setting(key, value));
      lines := [key + "=" + value] + lines;
      added := added + [Setting(key, value)];
    }

    // obc_set_consoles
    method SetConsoles()
      requires Valid() && |bpc.comports| == 4
      modifies this
      ensures Valid() && added == old(added) + ConsoleSettings(bpc.comports, 4)
    {
      for i := 0 to 4
        invariant Valid() && added == old(added) + ConsoleSettings(bpc.comports, i)
      {
        if bpc.comports[i].enabled { Add(ComKey(i), bpc.comports[i].backend); }
      }
    }

    // obc_set_pcislots
    method SetPciSlots() returns (rc: int)
      requires Valid()
      modifies this
      ensures Valid() && added == old(added) + SlotSettings(bpc.pcislots)
      ensures rc == if Writable(bpc.pcislots) then 0 else -1
    {
      hide SlotSetting, SlotSettings, Writable, Stacked;
      NoSlots();
      var iter := bpc.IterPciSlots();
      while true
        invariant Valid() && iter.Valid() && fresh(iter)
        invariant Writable(iter.Rest()) == Writable(bpc.pcislots)
        invariant added + SlotSettings(iter.Rest()) == old(added) + SlotSettings(bpc.pcislots)
        decreases |iter.Rest()|
      {
        ghost var (rest, before) := (iter.Rest(), added);
        var more := iter.Next();
        if !more { break; }
        var slot := iter.Item();
        NextSlot(rest, before);
        var ok := AddSlot(slot);
        if !ok { return -1; }
      }
      assert added + SlotSettings(iter.Rest()) == added;
      return 0;
    }

    // The switch of obc_set_pcislots.
    method AddSlot(slot: Slot) returns (ok: bool)
      requires Valid()
      modifies this
      ensures Valid() && ok == SlotSetting(slot).Some?
      ensures added == if ok then old(added) + [SlotSetting(slot).value] else old(added)
    {
      match slot.kind
      case TypeIsaBridge =>
        Add(SlotKey(slot), "lpc");
        return true;
      case TypeHostbridge(b) =>
        Add(SlotKey(slot), if b == Amd then "amd_hostbridge" else "hostbridge");
        return true;
      case _ => return false;
    }

    // obc_set_core
    method SetCore() returns (rc: int)
      requires Valid() && added == [] && |bpc.comports| == 4 && bpc.memory < 0x1_0000_0000
      modifies this
      ensures Valid() && added == Settings(bpc.Model())
      ensures rc == if Writable(bpc.pcislots) then 0 else -1
    {
      SetNumbers();
      Add("x86.vmexit_on_hlt", BoolText(bpc.yieldOnHlt));
      Add("acpi_tables", BoolText(bpc.acpiTables));
      Add("lpc.bootrom", BootromText(bpc.bootrom));
      assert added == CoreSettings(bpc.Model());
      SetConsoles();
      rc := SetPciSlots();
    }

    method SetNumbers()
      requires Valid() && added == [] && bpc.memory < 0x1_0000_0000
      modifies this
      ensures Valid() && added == Numbers(bpc.Model())
    {
      Add("name", bpc.vmname);
      AddIf(bpc.memory > 0, "memory.size", Signed(bpc.memory) + "M");
      AddIf(bpc.numcpus != 0, "cpus", Decimal(bpc.numcpus));
      AddIf(bpc.sockets != 0, "sockets", Decimal(bpc.sockets));
      AddIf(bpc.cores != 0, "sockets", Decimal(bpc.cores));
    }

    method AddIf(condition: bool, key: string, value: string)
      requires Valid()
      modifies this
      ensures Valid() && added == old(added) + If(condition, Setting(key, value))
    {
      if condition { Add(key, value); }
    }

    // obc_combine_with; None stands for a file that is not touched.
    method CombineWith(files: Files) returns (rc: int, text: Option<string>)
      requires Valid()
      ensures files.base.None? || !files.opens ==> rc == -1 && text == None
      ensures files.base.Some? && files.opens && !files.chmods ==> rc == -1 && text == Some("")
      ensures files.base.Some? && files.opens && files.chmods ==>
        var (written, ok) := Written(Pieces(files.base.value, lines), files.taking, 0, true);
        text == Some(written) && rc == if ok then 0 else -1
    {
      hide Part, Noticed;
      if files.base.None? || !files.opens { return -1, None; }
      if !files.chmods { return -1, Some(""); }
      var base := files.base.value;
      ghost var all := Pieces(base, lines);
      var t := Part(base, files.taking(0));
      if Noticed(true, base, files.taking(0)) { return -1, Some(t); }
      assert all[1..] == ["\n"] + LinePieces(lines) && all[1..][1..] == LinePieces(lines[0..]);
      t := t + Part("\n", files.taking(1));
      if Noticed(false, "\n", files.taking(1)) { return -1, Some(t); }
      assert lines[0..] == lines;
      ghost var later := Written(LinePieces(lines), files.taking, 2, true).0;
      assert t + later == Part(base, files.taking(0)) + (Part("\n", files.taking(1)) + later);
      for i := 0 to |lines|
        invariant var (later, ok) := Written(LinePieces(lines[i..]), files.taking, 2 * i + 2, true);
          Written(all, files.taking, 0, true) == (t + later, ok)
      {
        rc, t := WriteLine(files.taking, i, t);
        if rc != 0 { return -1, Some(t); }
      }
      assert lines[|lines|..] == [] && t + "" == t;
      return 0, Some(t);
    }

    // One line and its end.
    method WriteLine(taking: nat -> int, i: nat, before: string) returns (rc: int, t: string)
      requires i < |lines|
      ensures var (written, ok) := Written(LinePieces(lines[i..]), taking, 2 * i + 2, true);
        if rc == 0 then
          var (later, fine) := Written(LinePieces(lines[i + 1..]), taking, 2 * i + 4, true);
          before + written == t + later && ok == fine
        else rc == -1 && !ok && before + written == t
    {
      hide Part, Noticed;
      ghost var pieces := LinePieces(lines[i..]);
      assert lines[i..][1..] == lines[i + 1..];
      assert pieces[1..] == ["\n"] + LinePieces(lines[i + 1..]) && pieces[1..][1..] == LinePieces(lines[i + 1..]);
      t := before + Part(lines[i], taking(2 * i + 2));
      if Noticed(true, lines[i], taking(2 * i + 2)) { return -1, t; }
      t := t + Part("\n", taking(2 * i + 3));
      if Noticed(false, "\n", taking(2 * i + 3)) { return -1, t; }
      return 0, t;
    }
  }
}
