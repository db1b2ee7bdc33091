/** Generating the configuration file of a virtual machine: translation, output and
    combination with its base file.
  */
module ConfigGenerator {
  import opened Wrappers
  import opened Texts
  import opened CoreParameters
  import opened Checks
  import opened Translate
  import opened OutputCore
  import opened Override

  /** vmstated_generate_config_file: translation and output always succeed, the outcome is
      that of the files; and it returns 0 with the whole text in the file exactly when the
      files can be read and opened and every write takes its whole text. */
  method GenerateConfigFile(bc: VmConfig, files: Files) returns (rc: int, text: Option<string>)
    requires bc.memory < 0x1_0000_0000
    ensures rc == 0 && files.base.Some? && text == Some(Combined(files.base.value, GeneratedLines(bc))) <==>
      files.base.Some? && files.opens && files.chmods &&
      AllTaken(Pieces(files.base.value, GeneratedLines(bc)), files.taking, 0)
    ensures rc == 0 || rc == -1
    ensures files.base.None? || !files.opens ==> rc == -1 && text == None
  {
    var bpc := TranslateConfig(bc);
    TranslatedSlots(bc);
    var obc := new Output(bpc);
    rc := obc.SetCore();
    rc, text := obc.CombineWith(files);
    if files.base.Some? {
      EveryOtherEnds(files.base.value, obc.lines);
      WrittenExactly(Pieces(files.base.value, obc.lines), files.taking, 0, true);
      FlatPieces(files.base.value, obc.lines);
    }
  }

  // The lines that are written behind the base file.
  function GeneratedLines(bc: VmConfig): seq<string>
    requires bc.memory < 0x1_0000_0000
  {
    TranslatedSlots(bc);
    Stacked(Settings(Translated(bc)))
  }

  lemma EveryOtherEnds(base: string, lines: seq<string>)
    ensures forall i :: 0 <= i < |Pieces(base, lines)| && i % 2 == 1 ==> Pieces(base, lines)[i] == "\n"
  {
    EveryOtherLineEnds(lines);
    assert forall i :: 2 <= i < |Pieces(base, lines)| ==> Pieces(base, lines)[i] == LinePieces(lines)[i - 2];
  }

  lemma {:induction false} EveryOtherLineEnds(lines: seq<string>)
    ensures forall i :: 0 <= i < |LinePieces(lines)| && i % 2 == 1 ==> LinePieces(lines)[i] == "\n"
    decreases |lines|
  {
    if lines != [] {
      EveryOtherLineEnds(lines[1..]);
      var later := LinePieces(lines[1..]);
      assert forall i :: 2 <= i < |LinePieces(lines)| ==> LinePieces(lines)[i] == later[i - 2];
    }
  }

  lemma TranslatedSlots(bc: VmConfig)
    ensures Writable(Translated(bc).pcislots) && DistinctPlaces(Translated(bc).pcislots)
  {
    var (isa, bridges) := (IsaSlots(bc), BridgeSlots(bc));
    assert Writable(bridges) by {
      if bridges != [] { assert bridges[1..] == []; }
    }
    if isa != [] {
      assert (isa + bridges)[1..] == bridges;
    } else {
      assert isa + bridges == bridges;
    }
  }

  // No text of the configuration breaks a line.
  predicate OneLineConfig(bc: VmConfig) {
    OneLine(bc.name) && (bc.bootrom.Some? ==> OneLine(bc.bootrom.value)) &&
    forall i :: 0 <= i < |bc.consoles| && bc.consoles[i].backend.Some? ==> OneLine(bc.consoles[i].backend.value)
  }

  lemma ClippedIsOneLine(s: string, n: nat)
    requires OneLine(s)
    ensures OneLine(Clipped(s, n))
  {
    assert forall c :: c in Clipped(s, n) ==> c in s;
  }

  lemma PortIsOneLine(bc: VmConfig, i: nat)
    requires OneLineConfig(bc)
    ensures OneLine(Port(bc.consoles, i).backend)
  {
    if i < |bc.consoles| && bc.consoles[i].backend.Some? {
      ClippedIsOneLine(bc.consoles[i].backend.value, PATH_MAX);
    }
  }

  lemma BootromIsOneLine(bc: VmConfig)
    requires OneLineConfig(bc)
    ensures OneLine(BootromText(Basics(bc).bootrom))
  {
    var b := Basics(bc).bootrom;
    assert BootromText(b) == b.bootrom;
    if bc.bootrom.Some? { ClippedIsOneLine(bc.bootrom.value, PATH_MAX); }
  }

  lemma TranslatedIsOneLine(bc: VmConfig)
    requires OneLineConfig(bc)
    ensures OneLiners(Translated(bc))
  {
    ClippedIsOneLine(bc.name, NAME_MAX);
    BootromIsOneLine(bc);
    var ports := Translated(bc).comports;
    forall i | 0 <= i < |ports| ensures OneLine(ports[i].backend) {
      PortIsOneLine(bc, i);
      assert ports[i] == Port(bc.consoles, i);
    }
  }

  // What a configuration says about a key of the generated file.
  predicate ConfigSays(bc: VmConfig, key: string, value: string)
    requires bc.memory < 0x1_0000_0000
  {
    CoreConfigSays(bc, key, value) ||
    (|bc.consoles| > 0 && ConsoleSays(bc.consoles[0], "lpc.com1.path", key, value)) ||
    (|bc.consoles| > 1 && ConsoleSays(bc.consoles[1], "lpc.com2.path", key, value)) ||
    (|bc.consoles| > 2 && ConsoleSays(bc.consoles[2], "lpc.com3.path", key, value)) ||
    (|bc.consoles| > 3 && ConsoleSays(bc.consoles[3], "lpc.com4.path", key, value)) ||
    (|bc.consoles| > 0 && key == "pci.0.1.0.device" && value == "lpc") ||
    (bc.hostbridge.Some? && key == "pci.0.0.0.device" &&
     value == if IsAmd(bc.hostbridge.value) then "amd_hostbridge" else "hostbridge")
  }

  // Texts are cut at the fields that hold them.
  predicate CoreConfigSays(bc: VmConfig, key: string, value: string)
    requires bc.memory < 0x1_0000_0000
  {
    (key == "name" && value == Front(bc.name, 255)) ||
    (key == "memory.size" && 0 < bc.memory < 0x8000_0000 && value == Decimal(bc.memory) + "M") ||
    (key == "memory.size" && 0x8000_0000 <= bc.memory && value == "-" + Decimal(0x1_0000_0000 - bc.memory) + "M") ||
    (key == "cpus" && bc.numcpus != 0 && value == Decimal(bc.numcpus)) ||
    (key == "x86.vmexit_on_hlt" && value == if bc.vmexitOnHalt then "true" else "false") ||
    (key == "acpi_tables" && value == if bc.acpiTables then "true" else "false") ||
    (key == "lpc.bootrom" && value == if bc.bootrom.Some? then Front(bc.bootrom.value, 1024) else "")
  }

  predicate ConsoleSays(c: Console, port: string, key: string, value: string) {
    key == port && value == if c.backend.Some? then Front(c.backend.value, 1024) else ""
  }

  function Front(s: string, n: nat): string { s[..if |s| < n then |s| else n] }

  predicate IsAmd(h: string) {
    |h| == 3 && (h[0] == 'a' || h[0] == 'A') && (h[1] == 'm' || h[1] == 'M') && (h[2] == 'd' || h[2] == 'D')
  }

  lemma ClippedIsFront(s: string, n: nat)
    ensures Clipped(s, n) == Front(s, n)
  {
    assert s[..|s|] == s;
  }

  lemma BridgeIsAmd(h: string)
    ensures BridgeOf(h) == Amd <==> IsAmd(h)
  {
    assert Lower('a') == 'a' && Lower('m') == 'm' && Lower('d') == 'd';
    assert forall c: char :: Lower(c) == 'a' <==> c == 'a' || c == 'A';
    assert forall c: char :: Lower(c) == 'm' <==> c == 'm' || c == 'M';
    assert forall c: char :: Lower(c) == 'd' <==> c == 'd' || c == 'D';
  }

  lemma CoreIsSaid(bc: VmConfig, key: string, value: string)
    requires bc.memory < 0x1_0000_0000
    ensures CoreSays(Translated(bc), key, value) <==> CoreConfigSays(bc, key, value)
  {
    hide Decimal, Clipped, Front;
    ClippedIsFront(bc.name, 255);
    if bc.bootrom.Some? { ClippedIsFront(bc.bootrom.value, 1024); }
    var b := Translated(bc).bootrom;
    assert b.bootrom + b.varsfile == b.bootrom;
  }

  lemma PortIsSaid(bc: VmConfig, i: nat, key: string, value: string)
    requires i < 4
    ensures PortSays(Translated(bc).comports[i], i, key, value) <==>
      i < |bc.consoles| && ConsoleSays(bc.consoles[i], PORT_KEYS[i], key, value)
  {
    hide Clipped, Front;
    if i < |bc.consoles| && bc.consoles[i].backend.Some? { ClippedIsFront(bc.consoles[i].backend.value, 1024); }
    assert Translated(bc).comports[i] == Port(bc.consoles, i);
  }

  lemma SlotIsSaid(bc: VmConfig, key: string, value: string)
    ensures var slots := Translated(bc).pcislots;
      (exists i :: 0 <= i < |slots| && SlotSays(slots[i], key, value)) <==>
        (|bc.consoles| > 0 && key == "pci.0.1.0.device" && value == "lpc") ||
        (bc.hostbridge.Some? && key == "pci.0.0.0.device" &&
         value == if IsAmd(bc.hostbridge.value) then "amd_hostbridge" else "hostbridge")
  {
    hide BridgeOf, IsAmd;
    SlotKeysSpelled();
    var slots := Translated(bc).pcislots;
    if bc.hostbridge.Some? { BridgeIsAmd(bc.hostbridge.value); }
    if bc.consoles != [] { assert slots[0] == Slot(TypeIsaBridge, 0, 1, 0); }
    if bc.hostbridge.Some? {
      assert slots[|slots| - 1] == Slot(TypeHostbridge(BridgeOf(bc.hostbridge.value)), 0, 0, 0);
    }
    assert forall i :: 0 <= i < |slots| ==> slots[i] in IsaSlots(bc) || slots[i] in BridgeSlots(bc);
  }

  lemma SlotKeysSpelled()
    ensures "pci." + Decimal(0) + "." + Decimal(1) + "." + Decimal(0) + ".device" == "pci.0.1.0.device"
    ensures "pci." + Decimal(0) + "." + Decimal(0) + "." + Decimal(0) + ".device" == "pci.0.0.0.device"
  {
    assert Decimal(0) == "0" && Decimal(1) == "1";
  }

  lemma ConfigIsSaid(bc: VmConfig, key: string, value: string)
    requires bc.memory < 0x1_0000_0000
    ensures Says(Translated(bc), key, value) <==> ConfigSays(bc, key, value)
  {
    hide CoreSays, CoreConfigSays, PortSays, ConsoleSays, SlotSays, IsAmd;
    CoreIsSaid(bc, key, value);
    SlotIsSaid(bc, key, value);
    var ports := Translated(bc).comports;
    assert |ports| == 4;
    forall i | 0 <= i < 4
      ensures PortSays(ports[i], i, key, value) <==>
        i < |bc.consoles| && ConsoleSays(bc.consoles[i], PORT_KEYS[i], key, value)
    {
      PortIsSaid(bc, i, key, value);
    }
    assert (exists i :: 0 <= i < |ports| && PortSays(ports[i], i, key, value)) <==>
      PortSays(ports[0], 0, key, value) || PortSays(ports[1], 1, key, value) ||
      PortSays(ports[2], 2, key, value) || PortSays(ports[3], 3, key, value);
  }

  /** What the configuration says overrides the base file of the machine, with every key and
      value spelled out; "sockets" has the sockets, or the cores without sockets; and every key
      it says nothing about keeps its value. */
  lemma GeneratedFileIsRead(bc: VmConfig, base: string, key: string)
    requires bc.memory < 0x1_0000_0000 && OneLineConfig(bc)
    ensures var text := Combined(base, GeneratedLines(bc));
      (forall value :: ConfigSays(bc, key, value) ==> Read(text, key) == Some(value)) &&
      (key != "sockets" && (forall value :: !ConfigSays(bc, key, value)) ==> Read(text, key) == Read(base, key))
    ensures Read(Combined(base, GeneratedLines(bc)), "sockets") ==
      if bc.sockets != 0 then Some(Decimal(bc.sockets))
      else if bc.cores != 0 then Some(Decimal(bc.cores))
      else Read(base, "sockets")
  {
    hide ConfigSays, Says, Settings, Read, Combined;
    var p := Translated(bc);
    TranslatedIsOneLine(bc);
    TranslatedSlots(bc);
    forall value ensures Says(p, key, value) <==> ConfigSays(bc, key, value) { ConfigIsSaid(bc, key, value); }
    forall value | ConfigSays(bc, key, value)
      ensures Read(Combined(base, GeneratedLines(bc)), key) == Some(value)
    {
      ParametersOverride(base, p, key, value);
    }
    if key != "sockets" && forall value :: !ConfigSays(bc, key, value) { OtherKeysStay(base, p, key); }
    SocketsMayBeCores(base, p);
  }

  /** The COM ports of a translated configuration: one for each of the first four consoles, with
      its name and backend cut at the fields that hold them. */
  lemma PortsOfConsoles(bc: VmConfig, i: nat)
    requires i < 4
    ensures Translated(bc).comports[i] ==
      if i < |bc.consoles| then
        var c := bc.consoles[i];
        Comport(Front(c.name, 255), true, if c.backend.Some? then Front(c.backend.value, 1024) else "")
      else Comport("", false, "")
  {
    hide Clipped, Front;
    assert Translated(bc).comports[i] == Port(bc.consoles, i);
    if i < |bc.consoles| {
      ClippedIsFront(bc.consoles[i].name, 255);
      if bc.consoles[i].backend.Some? { ClippedIsFront(bc.consoles[i].backend.value, 1024); }
    }
  }
}
