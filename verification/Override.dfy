/** Reading a combined configuration file: the last line of a key counts. Behind a base
    file, the generated lines override its keys and leave all other keys alone.
  */
module Override {
  import opened Wrappers
  import opened Texts
  import opened CoreParameters
  import opened Checks
  import opened OutputCore

  // ---- a reader ---------------------------------------------------------------------

  // Position of the first c, |s| if there is none.
  function IndexOf(s: string, c: char): (i: nat)
    ensures i <= |s| && (i < |s| ==> s[i] == c)
    ensures forall k :: 0 <= k < i ==> s[k] != c
  {
    if s == "" || s[0] == c then 0 else 1 + IndexOf(s[1..], c)
  }

  function Lines(text: string): seq<string>
    decreases |text|
  {
    var i := IndexOf(text, '\n');
    if i == |text| then [text] else [text[..i]] + Lines(text[i + 1..])
  }

  // A line is split at its first equals sign.
  function Parse(line: string): Option<Setting> {
    var i := IndexOf(line, '=');
    if i == |line| then None else Some(Setting(line[..i], line[i + 1..]))
  }

  // The value of the last line with this key.
  function Find(lines: seq<string>, key: string): Option<string> {
    if lines == [] then None
    else
      var s := Parse(lines[|lines| - 1]);
      if s.Some? && s.value.key == key then Some(s.value.value) else Find(lines[..|lines| - 1], key)
  }

  function Read(text: string, key: string): Option<string> { Find(Lines(text), key) }

  // The first setting with this key.
  function First(settings: seq<Setting>, key: string): Option<string> {
    if settings == [] then None
    else if settings[0].key == key then Some(settings[0].value)
    else First(settings[1..], key)
  }

  // ---- lines ---------------------------------------------------------------------------

  lemma IndexIs(s: string, c: char, i: nat)
    requires i < |s| && s[i] == c && forall k :: 0 <= k < i ==> s[k] != c
    ensures IndexOf(s, c) == i
  {
  }

  lemma {:induction false} LinesOfTwo(a: string, b: string)
    ensures Lines(a + "\n" + b) == Lines(a) + Lines(b)
    decreases |a|
  {
    hide IndexOf;
    var text := a + "\n" + b;
    var i := IndexOf(a, '\n');
    IndexIs(text, '\n', i);
    if i == |a| {
      assert text[..i] == a && text[i + 1..] == b;
    } else {
      assert text[..i] == a[..i] && text[i + 1..] == a[i + 1..] + "\n" + b;
      LinesOfTwo(a[i + 1..], b);
    }
  }

  lemma {:induction false} LinesOfJoined(lines: seq<string>)
    requires forall i :: 0 <= i < |lines| ==> '\n' !in lines[i]
    ensures Lines(Joined(lines)) == lines + [""]
    decreases |lines|
  {
    if lines != [] {
      LinesOfTwo(lines[0], Joined(lines[1..]));
      assert Joined(lines) == lines[0] + "\n" + Joined(lines[1..]);
      LinesOfJoined(lines[1..]);
      assert '\n' !in lines[0];
      assert Lines(lines[0]) == [lines[0]];
      assert lines + [""] == [lines[0]] + (lines[1..] + [""]);
    }
  }

  lemma {:induction false} FindInTwo(a: seq<string>, b: seq<string>, key: string)
    ensures Find(a + b, key) == if Find(b, key).Some? then Find(b, key) else Find(a, key)
    decreases |b|
  {
    if b == [] {
      assert a + b == a;
    } else {
      assert (a + b)[..|a + b| - 1] == a + b[..|b| - 1];
      FindInTwo(a, b[..|b| - 1], key);
    }
  }

  predicate Clean(s: Setting) { '=' !in s.key && '\n' !in s.key && '\n' !in s.value }

  predicate AllClean(settings: seq<Setting>) { forall i :: 0 <= i < |settings| ==> Clean(settings[i]) }

  lemma LineIsSetting(s: Setting)
    requires Clean(s)
    ensures Parse(LineOf(s)) == Some(s) && '\n' !in LineOf(s)
  {
    var line := LineOf(s);
    assert forall k :: 0 <= k < |s.key| ==> line[k] == s.key[k] && s.key[k] in s.key;
    IndexIs(line, '=', |s.key|);
    assert line[..|s.key|] == s.key && line[|s.key| + 1..] == s.value;
  }

  lemma {:induction false} StackedFront(s: Setting, rest: seq<Setting>)
    ensures Stacked([s] + rest) == Stacked(rest) + [LineOf(s)]
    decreases |rest|
  {
    var all := [s] + rest;
    if rest == [] {
      assert all[..|all| - 1] == [] && all[|all| - 1] == s;
      assert Stacked([]) == [];
    } else {
      assert all[..|all| - 1] == [s] + rest[..|rest| - 1];
      StackedFront(s, rest[..|rest| - 1]);
    }
  }

  // Reading the lines backwards finds the first setting.
  lemma {:induction false} FindIsFirst(settings: seq<Setting>, key: string)
    requires AllClean(settings)
    ensures Find(Stacked(settings), key) == First(settings, key)
    ensures forall i :: 0 <= i < |Stacked(settings)| ==> '\n' !in Stacked(settings)[i]
    decreases |settings|
  {
    if settings != [] {
      var rest := settings[1..];
      assert settings == [settings[0]] + rest;
      FindIsFirst(rest, key);
      StackedFront(settings[0], rest);
      LineIsSetting(settings[0]);
      var lines := Stacked(settings);
      assert lines[..|lines| - 1] == Stacked(rest);
    }
  }

  /** A key of the generated settings has the value of the first one that was added
      with it; every other key has the value of the base file. */
  lemma GeneratedOverrides(base: string, settings: seq<Setting>, key: string)
    requires AllClean(settings)
    ensures Read(Combined(base, Stacked(settings)), key) ==
      if First(settings, key).Some? then First(settings, key) else Read(base, key)
  {
    var lines := Stacked(settings);
    FindIsFirst(settings, key);
    LinesOfTwo(base, Joined(lines));
    LinesOfJoined(lines);
    FindInTwo(Lines(base), lines + [""], key);
    FindInTwo(lines, [""], key);
    assert Find([""], key) == None by { assert [""][..0] == [] && Parse("") == None; }
  }

  // ---- the settings of a machine --------------------------------------------------------

  function Either(a: Option<string>, b: Option<string>): Option<string> { if a.Some? then a else b }

  lemma {:induction false} FirstInTwo(a: seq<Setting>, b: seq<Setting>, key: string)
    ensures First(a + b, key) == Either(First(a, key), First(b, key))
    decreases |a|
  {
    if a == [] {
      assert a + b == b;
    } else {
      assert (a + b)[1..] == a[1..] + b;
      FirstInTwo(a[1..], b, key);
    }
  }

  lemma FirstIf(b: bool, s: Setting, key: string)
    ensures First(If(b, s), key) == if b && s.key == key then Some(s.value) else None
  {
    assert [s][1..] == [];
  }

  lemma FirstInNumbers(p: Params, key: string)
    requires p.memory < 0x1_0000_0000
    ensures First(Numbers(p), key) ==
      if key == "name" then Some(p.vmname)
      else if key == "memory.size" && p.memory > 0 then Some(Signed(p.memory) + "M")
      else if key == "cpus" && p.numcpus != 0 then Some(Decimal(p.numcpus))
      else if key == "sockets" && p.sockets != 0 then Some(Decimal(p.sockets))
      else if key == "sockets" && p.cores != 0 then Some(Decimal(p.cores))
      else None
  {
    var a := [Setting("name", p.vmname)];
    var b := If(p.memory > 0, Setting("memory.size", Signed(p.memory) + "M"));
    var c := If(p.numcpus != 0, Setting("cpus", Decimal(p.numcpus)));
    var d := If(p.sockets != 0, Setting("sockets", Decimal(p.sockets)));
    var e := If(p.cores != 0, Setting("sockets", Decimal(p.cores)));
    FirstInFive(a, b, c, d, e, key);
    FirstIf(true, a[0], key);
    FirstIf(p.memory > 0, Setting("memory.size", Signed(p.memory) + "M"), key);
    FirstIf(p.numcpus != 0, Setting("cpus", Decimal(p.numcpus)), key);
    FirstIf(p.sockets != 0, Setting("sockets", Decimal(p.sockets)), key);
    FirstIf(p.cores != 0, Setting("sockets", Decimal(p.cores)), key);
  }

  lemma FirstInFive(a: seq<Setting>, b: seq<Setting>, c: seq<Setting>, d: seq<Setting>, e: seq<Setting>, key: string)
    ensures First(a + b + c + d + e, key) ==
      Either(Either(Either(Either(First(a, key), First(b, key)), First(c, key)), First(d, key)), First(e, key))
  {
    FirstInTwo(a, b, key);
    FirstInTwo(a + b, c, key);
    FirstInTwo(a + b + c, d, key);
    FirstInTwo(a + b + c + d, e, key);
  }

  lemma FirstInCore(p: Params, key: string)
    requires p.memory < 0x1_0000_0000
    ensures First(CoreSettings(p), key) ==
      Either(First(Numbers(p), key),
        if key == "x86.vmexit_on_hlt" then Some(BoolText(p.yieldOnHlt))
        else if key == "acpi_tables" then Some(BoolText(p.acpiTables))
        else if key == "lpc.bootrom" then Some(BootromText(p.bootrom))
        else None)
  {
    var a := Setting("x86.vmexit_on_hlt", BoolText(p.yieldOnHlt));
    var b := Setting("acpi_tables", BoolText(p.acpiTables));
    var c := Setting("lpc.bootrom", BootromText(p.bootrom));
    FirstInTwo(Numbers(p), [a, b, c], key);
    assert [a, b, c] == If(true, a) + If(true, b) + If(true, c);
    FirstInTwo(If(true, a) + If(true, b), If(true, c), key);
    FirstInTwo(If(true, a), If(true, b), key);
    FirstIf(true, a, key);
    FirstIf(true, b, key);
    FirstIf(true, c, key);
  }

  /** Two COM ports never share a key, two slots only when they have the same place. */
  lemma ComKeysDiffer(i: nat, j: nat)
    ensures ComKey(i) == ComKey(j) <==> i == j
  {
    if ComKey(i) == ComKey(j) {
      var (a, b) := (Decimal(i + 1), Decimal(j + 1));
      assert ComKey(i)[7..] == a + ['.'] + "path" && ComKey(j)[7..] == b + ['.'] + "path";
      SplitAtFirst(a, "path", b, "path", '.');
      DecimalIsInjective(i + 1, j + 1);
    }
  }

  lemma SlotKeysDiffer(a: Slot, b: Slot)
    ensures SlotKey(a) == SlotKey(b) <==> SamePlace(a, b)
  {
    if SlotKey(a) == SlotKey(b) {
      SameParts(Decimal(a.bus), Decimal(a.pcislot), Decimal(a.func),
                Decimal(b.bus), Decimal(b.pcislot), Decimal(b.func));
      DecimalIsInjective(a.bus, b.bus);
      DecimalIsInjective(a.pcislot, b.pcislot);
      DecimalIsInjective(a.func, b.func);
    }
  }

  lemma SameParts(a1: string, a2: string, a3: string, b1: string, b2: string, b3: string)
    requires '.' !in a1 && '.' !in a2 && '.' !in a3 && '.' !in b1 && '.' !in b2 && '.' !in b3
    requires "pci." + a1 + "." + a2 + "." + a3 + ".device" == "pci." + b1 + "." + b2 + "." + b3 + ".device"
    ensures a1 == b1 && a2 == b2 && a3 == b3
  {
    var (x3, y3) := (a3 + ['.'] + "device", b3 + ['.'] + "device");
    var (x2, y2) := (a2 + ['.'] + x3, b2 + ['.'] + y3);
    Tail(a1, a2, a3);
    Tail(b1, b2, b3);
    SplitAtFirst(a1, x2, b1, y2, '.');
    SplitAtFirst(a2, x3, b2, y3, '.');
    SplitAtFirst(a3, "device", b3, "device", '.');
  }

  lemma Tail(a: string, b: string, c: string)
    ensures ("pci." + a + "." + b + "." + c + ".device")[4..] == a + ['.'] + (b + ['.'] + (c + ['.'] + "device"))
  {
  }

  lemma {:induction false} FirstInSlots(slots: seq<Slot>, i: nat)
    requires Writable(slots) && DistinctPlaces(slots) && i < |slots|
    ensures SlotSetting(slots[i]).Some?
    ensures First(SlotSettings(slots), SlotKey(slots[i])) == Some(SlotSetting(slots[i]).value.value)
    decreases |slots|
  {
    if i > 0 {
      SlotKeysDiffer(slots[0], slots[i]);
      FirstInSlots(slots[1..], i - 1);
      assert SlotSettings(slots)[1..] == SlotSettings(slots[1..]);
    }
  }

  lemma {:induction false} FirstInConsoles(ports: seq<Comport>, n: nat, i: nat)
    requires n <= |ports|
    ensures First(ConsoleSettings(ports, n), ComKey(i)) ==
      if i < n && ports[i].enabled then Some(ports[i].backend) else None
    decreases n
  {
    if n > 0 {
      FirstInConsoles(ports, n - 1, i);
      ComKeysDiffer(n - 1, i);
      var s := Setting(ComKey(n - 1), ports[n - 1].backend);
      FirstInTwo(ConsoleSettings(ports, n - 1), If(ports[n - 1].enabled, s), ComKey(i));
      FirstIf(ports[n - 1].enabled, s, ComKey(i));
    }
  }

  // Keys of slots are none of the others.
  lemma {:induction false} NoConsoleKey(ports: seq<Comport>, n: nat, key: string)
    requires n <= |ports| && (|key| < 5 || key[..5] != "lpc.c")
    ensures First(ConsoleSettings(ports, n), key) == None
    decreases n
  {
    if n > 0 {
      NoConsoleKey(ports, n - 1, key);
      var s := Setting(ComKey(n - 1), ports[n - 1].backend);
      assert s.key[..5] == "lpc.c";
      FirstInTwo(ConsoleSettings(ports, n - 1), If(ports[n - 1].enabled, s), key);
      FirstIf(ports[n - 1].enabled, s, key);
    }
  }

  lemma {:induction false} NoSlotKey(slots: seq<Slot>, key: string)
    requires |key| < 4 || key[..4] != "pci."
    ensures First(SlotSettings(slots), key) == None
    decreases |slots|
  {
    if slots != [] && SlotSetting(slots[0]).Some? {
      assert SlotKey(slots[0])[..4] == "pci.";
      NoSlotKey(slots[1..], key);
      assert SlotSettings(slots)[1..] == SlotSettings(slots[1..]);
    }
  }

  lemma NoCoreKey(p: Params, key: string)
    requires p.memory < 0x1_0000_0000 && 5 <= |key| && (key[..5] == "lpc.c" || key[..4] == "pci.")
    ensures First(CoreSettings(p), key) == None
  {
    assert key[0] == key[..5][0] && key[1] == key[..5][1] && key[4] == key[..5][4];
    assert key[0] == key[..4][0] && key[1] == key[..4][1];
    hide First, Numbers, CoreSettings;
    FirstInCore(p, key);
    FirstInNumbers(p, key);
  }

  lemma FirstInSettings(p: Params, key: string)
    requires p.memory < 0x1_0000_0000
    ensures First(Settings(p), key) ==
      Either(Either(First(CoreSettings(p), key), First(ConsoleSettings(p.comports, |p.comports|), key)),
             First(SlotSettings(p.pcislots), key))
  {
    FirstInTwo(CoreSettings(p), ConsoleSettings(p.comports, |p.comports|), key);
    FirstInTwo(CoreSettings(p) + ConsoleSettings(p.comports, |p.comports|), SlotSettings(p.pcislots), key);
  }

  // ---- clean settings -------------------------------------------------------------------

  predicate OneLine(s: string) { '\n' !in s }

  // No value of the machine breaks a line.
  predicate OneLiners(p: Params) {
    OneLine(p.vmname) && OneLine(BootromText(p.bootrom)) &&
    forall i :: 0 <= i < |p.comports| ==> OneLine(p.comports[i].backend)
  }

  lemma AllCleanOfTwo(a: seq<Setting>, b: seq<Setting>)
    requires AllClean(a) && AllClean(b)
    ensures AllClean(a + b)
  {
  }

  lemma CleanNumbers(p: Params)
    requires p.memory < 0x1_0000_0000 && OneLine(p.vmname)
    ensures AllClean(Numbers(p))
  {
    assert Clean(Setting("name", p.vmname));
    assert Clean(Setting("memory.size", Signed(p.memory) + "M"));
    assert Clean(Setting("cpus", Decimal(p.numcpus)));
    assert Clean(Setting("sockets", Decimal(p.sockets)));
    assert Clean(Setting("sockets", Decimal(p.cores)));
  }

  lemma CleanThree(a: Setting, b: Setting, c: Setting)
    requires Clean(a) && Clean(b) && Clean(c)
    ensures AllClean([a, b, c])
  {
  }

  lemma CleanFlag(b: bool)
    ensures Clean(Setting("x86.vmexit_on_hlt", BoolText(b)))
  {
  }

  lemma CleanTables(b: bool)
    ensures Clean(Setting("acpi_tables", BoolText(b)))
  {
  }

  lemma CleanCore(p: Params)
    requires p.memory < 0x1_0000_0000 && OneLiners(p)
    ensures AllClean(CoreSettings(p))
  {
    CleanNumbers(p);
    var a := Setting("x86.vmexit_on_hlt", BoolText(p.yieldOnHlt));
    var b := Setting("acpi_tables", BoolText(p.acpiTables));
    var c := Setting("lpc.bootrom", BootromText(p.bootrom));
    CleanFlag(p.yieldOnHlt);
    CleanTables(p.acpiTables);
    CleanThree(a, b, c);
    AllCleanOfTwo(Numbers(p), [a, b, c]);
  }

  lemma {:induction false} CleanConsoles(ports: seq<Comport>, n: nat)
    requires n <= |ports| && forall i :: 0 <= i < n ==> OneLine(ports[i].backend)
    ensures AllClean(ConsoleSettings(ports, n))
    decreases n
  {
    if n > 0 {
      CleanConsoles(ports, n - 1);
      assert Clean(Setting(ComKey(n - 1), ports[n - 1].backend));
    }
  }

  lemma DecimalIsPlain(n: nat)
    ensures '=' !in Decimal(n) && '\n' !in Decimal(n)
  {
  }

  lemma PlainKey(a: string, b: string, c: string, bad: char)
    requires bad !in a && bad !in b && bad !in c && (bad == '=' || bad == '\n')
    ensures bad !in "pci." + a + "." + b + "." + c + ".device"
  {
    assert bad !in "pci." && bad !in "." && bad !in ".device";
  }

  lemma CleanSlot(s: Slot)
    requires SlotSetting(s).Some?
    ensures Clean(SlotSetting(s).value)
  {
    DecimalIsPlain(s.bus);
    DecimalIsPlain(s.pcislot);
    DecimalIsPlain(s.func);
    PlainKey(Decimal(s.bus), Decimal(s.pcislot), Decimal(s.func), '=');
    PlainKey(Decimal(s.bus), Decimal(s.pcislot), Decimal(s.func), '\n');
  }

  lemma {:induction false} CleanSlots(slots: seq<Slot>)
    ensures AllClean(SlotSettings(slots))
    decreases |slots|
  {
    if slots != [] && SlotSetting(slots[0]).Some? {
      CleanSlots(slots[1..]);
      CleanSlot(slots[0]);
      AllCleanOfTwo([SlotSetting(slots[0]).value], SlotSettings(slots[1..]));
    }
  }

  lemma CleanSettings(p: Params)
    requires p.memory < 0x1_0000_0000 && OneLiners(p)
    ensures AllClean(Settings(p))
  {
    CleanCore(p);
    CleanConsoles(p.comports, |p.comports|);
    CleanSlots(p.pcislots);
  }

  // ---- the combined file ----------------------------------------------------------------

  // What the parameters say about a key: in the core, for a COM port, for a slot.
  predicate CoreSays(p: Params, key: string, value: string)
    requires p.memory < 0x1_0000_0000
  {
    (key == "name" && value == p.vmname) ||
    (key == "memory.size" && 0 < p.memory < 0x8000_0000 && value == Decimal(p.memory) + "M") ||
    (key == "memory.size" && 0x8000_0000 <= p.memory && value == "-" + Decimal(0x1_0000_0000 - p.memory) + "M") ||
    (key == "cpus" && p.numcpus != 0 && value == Decimal(p.numcpus)) ||
    (key == "x86.vmexit_on_hlt" && value == if p.yieldOnHlt then "true" else "false") ||
    (key == "acpi_tables" && value == if p.acpiTables then "true" else "false") ||
    (key == "lpc.bootrom" && p.bootrom.withVars && value == p.bootrom.bootrom + "," + p.bootrom.varsfile) ||
    (key == "lpc.bootrom" && !p.bootrom.withVars && value == p.bootrom.bootrom + p.bootrom.varsfile)
  }

  const PORT_KEYS: seq<string> := ["lpc.com1.path", "lpc.com2.path", "lpc.com3.path", "lpc.com4.path"]

  predicate PortSays(port: Comport, i: nat, key: string, value: string) {
    i < 4 && key == PORT_KEYS[i] && port.enabled && value == port.backend
  }

  predicate SlotSays(s: Slot, key: string, value: string) {
    key == "pci." + Decimal(s.bus) + "." + Decimal(s.pcislot) + "." + Decimal(s.func) + ".device" &&
    match s.kind
    case TypeIsaBridge => value == "lpc"
    case TypeHostbridge(Standard) => value == "hostbridge"
    case TypeHostbridge(Amd) => value == "amd_hostbridge"
    case _ => false
  }

  lemma PortKeys(i: nat)
    requires i < 4
    ensures ComKey(i) == PORT_KEYS[i]
  {
    assert Decimal(1) == "1" && Decimal(2) == "2" && Decimal(3) == "3" && Decimal(4) == "4";
  }

  lemma SlotSaysItsSetting(s: Slot, key: string, value: string)
    ensures SlotSays(s, key, value) <==> SlotSetting(s) == Some(Setting(key, value))
  {
  }

  lemma BootromValue(b: Bootrom)
    ensures BootromText(b) == if b.withVars then b.bootrom + "," + b.varsfile else b.bootrom + b.varsfile
  {
    assert b.bootrom + "" == b.bootrom;
  }

  predicate Says(p: Params, key: string, value: string)
    requires p.memory < 0x1_0000_0000
  {
    CoreSays(p, key, value) ||
    (exists i :: 0 <= i < |p.comports| && PortSays(p.comports[i], i, key, value)) ||
    (exists i :: 0 <= i < |p.pcislots| && SlotSays(p.pcislots[i], key, value))
  }

  lemma CoreSaid(p: Params, key: string, value: string)
    requires p.memory < 0x1_0000_0000 && CoreSays(p, key, value)
    ensures First(Settings(p), key) == Some(value)
  {
    hide First, Settings, CoreSettings, Numbers, BootromText, Decimal;
    BootromValue(p.bootrom);
    assert "-" + Decimal(0x1_0000_0000 - p.memory) + "M" == ("-" + Decimal(0x1_0000_0000 - p.memory)) + "M";
    FirstInSettings(p, key);
    FirstInCore(p, key);
    FirstInNumbers(p, key);
  }

  lemma PortSaid(p: Params, i: nat, key: string, value: string)
    requires p.memory < 0x1_0000_0000 && i < |p.comports| && PortSays(p.comports[i], i, key, value)
    ensures First(Settings(p), key) == Some(value)
  {
    PortKeys(i);
    FirstInSettings(p, key);
    FirstInConsoles(p.comports, |p.comports|, i);
    assert key[..5] == "lpc.c";
    NoCoreKey(p, key);
  }

  lemma SlotSaid(p: Params, i: nat, key: string, value: string)
    requires p.memory < 0x1_0000_0000 && Writable(p.pcislots) && DistinctPlaces(p.pcislots)
    requires i < |p.pcislots| && SlotSays(p.pcislots[i], key, value)
    ensures First(Settings(p), key) == Some(value)
  {
    SlotSaysItsSetting(p.pcislots[i], key, value);
    FirstInSettings(p, key);
    FirstInSlots(p.pcislots, i);
    SlotKeyStarts(p.pcislots[i]);
    NoCoreKey(p, key);
    NoConsoleKey(p.comports, |p.comports|, key);
  }

  lemma SlotKeyStarts(s: Slot)
    ensures |SlotKey(s)| > 5 && SlotKey(s)[..4] == "pci." && SlotKey(s)[..5] != "lpc.c"
    ensures SlotSetting(s).Some? ==> SlotSetting(s).value.key == SlotKey(s)
  {
    assert SlotKey(s)[..5][0] == 'p';
  }

  /** Override semantics: behind any base file, every key the parameters speak of has
      the value they say, for parameters without line breaks and with slots at
      different places. */
  lemma ParametersOverride(base: string, p: Params, key: string, value: string)
    requires p.memory < 0x1_0000_0000 && OneLiners(p) && Writable(p.pcislots) && DistinctPlaces(p.pcislots)
    requires Says(p, key, value)
    ensures Read(Combined(base, Stacked(Settings(p))), key) == Some(value)
  {
    CleanSettings(p);
    GeneratedOverrides(base, Settings(p), key);
    if CoreSays(p, key, value) {
      CoreSaid(p, key, value);
    } else if i :| 0 <= i < |p.comports| && PortSays(p.comports[i], i, key, value) {
      PortSaid(p, i, key, value);
    } else {
      var i :| 0 <= i < |p.pcislots| && SlotSays(p.pcislots[i], key, value);
      SlotSaid(p, i, key, value);
    }
  }

  /** The cores are written under the key of the sockets: the file tells the number of
      sockets, or the number of cores when no number of sockets is given. */
  lemma SocketsMayBeCores(base: string, p: Params)
    requires p.memory < 0x1_0000_0000 && OneLiners(p)
    ensures Read(Combined(base, Stacked(Settings(p))), "sockets") ==
      if p.sockets != 0 then Some(Decimal(p.sockets))
      else if p.cores != 0 then Some(Decimal(p.cores))
      else Read(base, "sockets")
  {
    var key := "sockets";
    CleanSettings(p);
    GeneratedOverrides(base, Settings(p), key);
    FirstInSettings(p, key);
    FirstInCore(p, key);
    FirstInNumbers(p, key);
    assert key[..4] != "pci." by { assert key[..4][0] == 's'; }
    assert key[..5] != "lpc.c" by { assert key[..5][0] == 's'; }
    NoConsoleKey(p.comports, |p.comports|, key);
    NoSlotKey(p.pcislots, key);
  }

  // Only what the parameters say is generated.
  lemma {:induction false} SlotFirstIsSaid(slots: seq<Slot>, key: string)
    requires First(SlotSettings(slots), key).Some?
    ensures exists i :: 0 <= i < |slots| && SlotSays(slots[i], key, First(SlotSettings(slots), key).value)
    decreases |slots|
  {
    var settings := SlotSettings(slots);
    if settings[0].key == key {
      SlotSaysItsSetting(slots[0], key, settings[0].value);
    } else {
      assert settings[1..] == SlotSettings(slots[1..]);
      SlotFirstIsSaid(slots[1..], key);
      var i :| 0 <= i < |slots| - 1 && SlotSays(slots[1..][i], key, First(settings, key).value);
      assert SlotSays(slots[i + 1], key, First(settings, key).value);
    }
  }

  lemma {:induction false} PortFirstIsSaid(ports: seq<Comport>, n: nat, key: string)
    requires n <= |ports| <= 4 && First(ConsoleSettings(ports, n), key).Some?
    ensures exists i :: 0 <= i < |ports| && PortSays(ports[i], i, key, First(ConsoleSettings(ports, n), key).value)
    decreases n
  {
    if n > 0 {
      var s := Setting(ComKey(n - 1), ports[n - 1].backend);
      FirstInTwo(ConsoleSettings(ports, n - 1), If(ports[n - 1].enabled, s), key);
      FirstIf(ports[n - 1].enabled, s, key);
      if First(ConsoleSettings(ports, n - 1), key).Some? {
        PortFirstIsSaid(ports, n - 1, key);
      } else {
        PortKeys(n - 1);
        assert PortSays(ports[n - 1], n - 1, key, s.value);
      }
    }
  }

  // The parameters say nothing about the key.
  ghost predicate Silent(p: Params, key: string)
    requires p.memory < 0x1_0000_0000
  {
    key != "sockets" && forall value :: !Says(p, key, value)
  }

  lemma CoreFirstIsSaid(p: Params, key: string)
    requires p.memory < 0x1_0000_0000 && key != "sockets" && First(CoreSettings(p), key).Some?
    ensures CoreSays(p, key, First(CoreSettings(p), key).value)
  {
    hide First, CoreSettings, Numbers, BootromText, Decimal;
    BootromValue(p.bootrom);
    FirstInCore(p, key);
    FirstInNumbers(p, key);
  }

  lemma FirstIsSaid(p: Params, key: string)
    requires p.memory < 0x1_0000_0000 && key != "sockets" && |p.comports| <= 4
    ensures First(Settings(p), key).Some? ==> Says(p, key, First(Settings(p), key).value)
  {
    FirstInSettings(p, key);
    if First(CoreSettings(p), key).Some? {
      CoreFirstIsSaid(p, key);
    } else if First(ConsoleSettings(p.comports, |p.comports|), key).Some? {
      PortFirstIsSaid(p.comports, |p.comports|, key);
    } else if First(SlotSettings(p.pcislots), key).Some? {
      SlotFirstIsSaid(p.pcislots, key);
    }
  }

  /** A key of which the parameters say nothing keeps the value of the base file. */
  lemma OtherKeysStay(base: string, p: Params, key: string)
    requires p.memory < 0x1_0000_0000 && OneLiners(p) && |p.comports| <= 4 && Silent(p, key)
    ensures Read(Combined(base, Stacked(Settings(p))), key) == Read(base, key)
  {
    CleanSettings(p);
    GeneratedOverrides(base, Settings(p), key);
    FirstIsSaid(p, key);
  }
}
