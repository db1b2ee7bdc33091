/** Name-value lists and the tables that map the fields of a C structure to their
    entries: a structure that is encoded and decoded through the same table keeps the
    value of every mapped field, also where numeric fields overlap.
  */
module NvMapping {
  import opened Sockets

  datatype NvValue =
    | Null
    | Text(text: seq<byte>)
    | Number(number: nat)
    | Bool(flag: bool)
    | Numbers(numbers: seq<nat>)
    | Binary(bytes: seq<byte>)

  type Nvlist = map<string, NvValue>

  datatype Kind = FixedString | DynamicString | Uint16 | Uint32 | Uint64 | Boolean | Unsupported

  // nvlistitem_mapping
  datatype Mapping = Mapping(offset: nat, kind: Kind, size: nat, varname: string)

  // A structure: its bytes, and the strings its pointers point to by the offset of
  // the pointer. A NULL pointer has no string.
  datatype Memory = Memory(bytes: seq<byte>, strings: map<nat, seq<byte>>)

  // ---- little-endian numbers ----------------------------------------------------------

  function FromLe(s: seq<byte>): nat { if s == [] then 0 else s[0] + 256 * FromLe(s[1..]) }

  // The n low bytes of a number.
  function ToLe(v: nat, n: nat): (s: seq<byte>)
    ensures |s| == n
  {
    if n == 0 then [] else [v % 256] + ToLe(v / 256, n - 1)
  }

  lemma {:induction false} LeRestores(s: seq<byte>)
    ensures ToLe(FromLe(s), |s|) == s
    decreases |s|
  {
    if s != [] {
      LeRestores(s[1..]);
      assert FromLe(s) % 256 == s[0] && FromLe(s) / 256 == FromLe(s[1..]);
    }
  }

  function Power256(n: nat): nat { if n == 0 then 1 else 256 * Power256(n - 1) }

  // Writing a number keeps its low bytes.
  lemma {:induction false} LeTruncates(v: nat, n: nat)
    ensures 0 < Power256(n) && FromLe(ToLe(v, n)) == v % Power256(n)
    decreases n
  {
    if n > 0 {
      LeTruncates(v / 256, n - 1);
      assert ToLe(v, n)[1..] == ToLe(v / 256, n - 1);
      ModOfProduct(v, Power256(n - 1));
    }
  }

  lemma ModOfProduct(v: nat, p: nat)
    requires 0 < p
    ensures v % (256 * p) == v % 256 + 256 * ((v / 256) % p)
  {
    var (q, r) := (v / 256 / p, (v / 256) % p);
    var low := v % 256 + 256 * r;
    assert v == q * (256 * p) + low by {
      assert v / 256 == q * p + r;
      assert 256 * (q * p) == q * (256 * p);
    }
    assert 0 <= low < 256 * p;
    QuotientIsUnique(v, 256 * p, q, low);
  }

  lemma QuotientIsUnique(v: nat, d: nat, q: nat, r: nat)
    requires 0 < d && v == q * d + r && r < d
    ensures v % d == r
  {
    var k := v / d - q;
    assert k * d == r - v % d by { assert v == (v / d) * d + v % d; }
    Multiples(k, d);
  }

  lemma Multiples(k: int, d: int)
    requires 0 < d
    ensures 0 < k ==> k * d >= d
    ensures k < 0 ==> k * d <= -d
  {
  }

  lemma LeOfNumber(v: nat, n: nat)
    requires v < Power256(n)
    ensures FromLe(ToLe(v, n)) == v
  {
    LeTruncates(v, n);
  }

  // ---- one field -----------------------------------------------------------------------

  function Width(m: Mapping): nat {
    match m.kind
    case FixedString => m.size
    case DynamicString => 8
    case Uint16 => 2
    case Uint32 => 4
    case Uint64 => 8
    case Boolean => 1
    case Unsupported => 0
  }

  predicate Numeric(m: Mapping) { m.kind == Uint16 || m.kind == Uint32 || m.kind == Uint64 }

  predicate FitsIn(m: Mapping, size: nat) { m.offset + Width(m) <= size }

  predicate Fits(m: Mapping, mem: Memory) { FitsIn(m, |mem.bytes|) }

  function Region(m: Mapping, mem: Memory): (r: seq<byte>)
    requires Fits(m, mem)
    ensures |r| == Width(m)
  {
    mem.bytes[m.offset..m.offset + Width(m)]
  }

  // The value of a field as the encoder sees it. A fixed string ends at its zero byte.
  function Value(m: Mapping, mem: Memory): NvValue
    requires Fits(m, mem)
  {
    match m.kind
    case FixedString => Text(Region(m, mem)[..FirstZero(Region(m, mem))])
    case DynamicString => if m.offset in mem.strings then Text(mem.strings[m.offset]) else Null
    case Boolean => Bool(Region(m, mem)[0] != 0)
    case Unsupported => Null
    case _ => Number(FromLe(Region(m, mem)))
  }

  // One step of bcmd_encodenvlist.
  function Put(m: Mapping, mem: Memory, nvl: Nvlist): Nvlist
    requires Fits(m, mem)
  {
    nvl[m.varname := Value(m, mem)]
  }

  function Written(mem: Memory, offset: nat, s: seq<byte>): (r: Memory)
    requires offset + |s| <= |mem.bytes|
    ensures |r.bytes| == |mem.bytes| && r.strings == mem.strings
    ensures forall k :: 0 <= k < |r.bytes| ==>
      r.bytes[k] == if offset <= k < offset + |s| then s[k - offset] else mem.bytes[k]
  {
    mem.(bytes := mem.bytes[..offset] + s + mem.bytes[offset + |s|..])
  }

  // strncpy
  function Padded(s: seq<byte>, size: nat): (r: seq<byte>)
    ensures |r| == size
  {
    if |s| >= size then s[..size] else s + seq(size - |s|, _ => 0)
  }

  // One step of bcmd_decodenvlist. An entry of another type counts as missing.
  function Get(m: Mapping, nvl: Nvlist, mem: Memory): (r: Memory)
    requires Fits(m, mem)
    ensures |r.bytes| == |mem.bytes|
  {
    var v := if m.varname in nvl then nvl[m.varname] else Null;
    match m.kind
    case FixedString => if v.Text? then Written(mem, m.offset, Padded(v.text, m.size)) else mem
    case DynamicString =>
      mem.(strings := if v.Text? then mem.strings[m.offset := v.text] else mem.strings - {m.offset})
    case Boolean => if v.Bool? then Written(mem, m.offset, [if v.flag then 1 else 0]) else mem
    case Unsupported => mem
    case _ => if v.Number? then Written(mem, m.offset, ToLe(v.number, Width(m))) else mem
  }

  // ---- whole tables ------------------------------------------------------------------------

  predicate AllFitIn(table: seq<Mapping>, size: nat) {
    forall i {:trigger FitsIn(table[i], size)} :: 0 <= i < |table| ==> FitsIn(table[i], size)
  }

  predicate AllFit(table: seq<Mapping>, mem: Memory) { AllFitIn(table, |mem.bytes|) }

  // Index of the first entry whose type is not supported; the loops stop there.
  function Stop(table: seq<Mapping>): (n: nat)
    ensures n <= |table| && (n < |table| ==> table[n].kind == Unsupported)
    ensures forall i :: 0 <= i < n ==> table[i].kind != Unsupported
  {
    if table == [] || table[0].kind == Unsupported then 0 else 1 + Stop(table[1..])
  }

  function EncodeUpTo(table: seq<Mapping>, n: nat, mem: Memory, nvl: Nvlist): Nvlist
    requires n <= |table| && AllFit(table, mem)
  {
    if n == 0 then nvl else Put(table[n - 1], mem, EncodeUpTo(table, n - 1, mem, nvl))
  }

  function DecodeUpTo(table: seq<Mapping>, n: nat, nvl: Nvlist, mem: Memory): (r: Memory)
    requires n <= |table| && AllFit(table, mem)
    ensures |r.bytes| == |mem.bytes|
  {
    if n == 0 then mem else Get(table[n - 1], nvl, DecodeUpTo(table, n - 1, nvl, mem))
  }

  function Encode(table: seq<Mapping>, mem: Memory, nvl: Nvlist): Nvlist
    requires AllFit(table, mem)
  {
    EncodeUpTo(table, Stop(table), mem, nvl)
  }

  function Decode(table: seq<Mapping>, nvl: Nvlist, mem: Memory): (r: Memory)
    requires AllFit(table, mem)
    ensures |r.bytes| == |mem.bytes|
  {
    DecodeUpTo(table, Stop(table), nvl, mem)
  }

  // The switch of bcmd_encodenvlist.
  method AddEntry(m: Mapping, mem: Memory, nvl: Nvlist) returns (r: Nvlist)
    requires Fits(m, mem) && m.kind != Unsupported
    ensures r == Put(m, mem, nvl)
  {
    match m.kind
    case FixedString =>
      var text := Region(m, mem);
      r := nvl[m.varname := Text(text[..FirstZero(text)])];
    case DynamicString =>
      if m.offset in mem.strings {
        r := nvl[m.varname := Text(mem.strings[m.offset])];
      } else {
        r := nvl[m.varname := Null];
      }
    case Boolean => r := nvl[m.varname := Bool(mem.bytes[m.offset] != 0)];
    case Uint16 | Uint32 | Uint64 => r := nvl[m.varname := Number(FromLe(Region(m, mem)))];
  }

  // bcmd_encodenvlist
  method EncodeNvlist(table: seq<Mapping>, mem: Memory, nvl: Nvlist) returns (rc: int, r: Nvlist)
    requires AllFit(table, mem)
    ensures r == Encode(table, mem, nvl) && rc == if Stop(table) == |table| then 0 else -1
  {
    r := nvl;
    for counter := 0 to |table|
      invariant counter <= Stop(table) && r == EncodeUpTo(table, counter, mem, nvl)
    {
      var m := table[counter];
      if m.kind == Unsupported { return -1, r; }
      r := AddEntry(m, mem, r);
    }
    rc := 0;
  }

  // bcmd_decodenvlist
  method DecodeNvlist(table: seq<Mapping>, nvl: Nvlist, mem: Memory) returns (rc: int, r: Memory)
    requires AllFit(table, mem)
    ensures r == Decode(table, nvl, mem) && rc == if Stop(table) == |table| then 0 else -1
  {
    r := mem;
    for counter := 0 to |table|
      invariant counter <= Stop(table) && |r.bytes| == |mem.bytes|
      invariant r == DecodeUpTo(table, counter, nvl, mem)
    {
      var m := table[counter];
      if m.kind == Unsupported { return -1, r; }
      assert Fits(m, r);
      r := Get(m, nvl, r);
    }
    rc := 0;
  }

  // ---- round trip ------------------------------------------------------------------------------

  predicate Disjoint(a: Mapping, b: Mapping) {
    a.offset + Width(a) <= b.offset || b.offset + Width(b) <= a.offset
  }

  // Fields may only overlap when both are numbers.
  predicate Compatible(a: Mapping, b: Mapping) {
    a.varname != b.varname && (Disjoint(a, b) || (Numeric(a) && Numeric(b)))
  }

  predicate Sound(table: seq<Mapping>) {
    (forall i {:trigger Width(table[i])} :: 0 <= i < |table| ==> 0 < Width(table[i])) &&
    forall i, j {:trigger Compatible(table[i], table[j])} ::
      0 <= i < j < |table| ==> Compatible(table[i], table[j])
  }

  // Fixed strings end inside their field.
  predicate Terminated(table: seq<Mapping>, mem: Memory)
    requires AllFit(table, mem)
  {
    forall i {:trigger EndsInside(table[i], mem)} :: 0 <= i < |table| ==> EndsInside(table[i], mem)
  }

  predicate EndsInside(m: Mapping, mem: Memory)
    requires Fits(m, mem)
  {
    m.kind == FixedString ==> FirstZero(Region(m, mem)) < m.size
  }

  // Field m has its value back; a number has all its bytes back.
  predicate Restored(m: Mapping, r: Memory, a: Memory)
    requires Fits(m, r) && Fits(m, a)
  {
    Value(m, r) == Value(m, a) && (Numeric(m) ==> Region(m, r) == Region(m, a))
  }

  lemma GetRestores(m: Mapping, nvl: Nvlist, mem: Memory, a: Memory)
    requires Fits(m, mem) && Fits(m, a) && m.kind != Unsupported
    requires EndsInside(m, a)
    requires m.varname in nvl && nvl[m.varname] == Value(m, a)
    ensures Restored(m, Get(m, nvl, mem), a)
  {
    var r := Get(m, nvl, mem);
    if Numeric(m) {
      LeRestores(Region(m, a));
      assert Region(m, r) == ToLe(FromLe(Region(m, a)), Width(m));
    } else if m.kind == FixedString {
      var text := Value(m, a).text;
      assert Region(m, r) == Padded(text, m.size);
      var pad: seq<byte> := seq(m.size - |text| - 1, _ => 0);
      assert Region(m, r) == text + [0] + pad;
      FirstZeroOf(text, pad);
    }
  }

  // Outside its own field a step changes nothing.
  lemma GetIsLocal(m: Mapping, nvl: Nvlist, mem: Memory)
    requires Fits(m, mem)
    ensures var r := Get(m, nvl, mem);
      (forall k :: 0 <= k < |mem.bytes| && !(m.offset <= k < m.offset + Width(m)) ==> r.bytes[k] == mem.bytes[k]) &&
      (forall at :: at != m.offset ==>
        (at in r.strings <==> at in mem.strings) && (at in mem.strings ==> r.strings[at] == mem.strings[at])) &&
      (m.kind != DynamicString ==> r.strings == mem.strings)
  {
  }

  lemma DisjointKeeps(m: Mapping, other: Mapping, nvl: Nvlist, mem: Memory, a: Memory)
    requires Fits(m, mem) && Fits(other, mem) && Fits(other, a)
    requires Disjoint(m, other) && 0 < Width(m) && 0 < Width(other) && Restored(other, mem, a)
    ensures Restored(other, Get(m, nvl, mem), a)
  {
    GetIsLocal(m, nvl, mem);
    assert Region(other, Get(m, nvl, mem)) == Region(other, mem);
  }

  lemma OverlapKeeps(m: Mapping, other: Mapping, nvl: Nvlist, mem: Memory, a: Memory)
    requires Fits(m, mem) && Fits(m, a) && Fits(other, mem) && Fits(other, a)
    requires Numeric(m) && Numeric(other)
    requires Restored(other, mem, a) && Restored(m, Get(m, nvl, mem), a)
    ensures Restored(other, Get(m, nvl, mem), a)
  {
    GetIsLocal(m, nvl, mem);
    SameBytes(m, other, mem, Get(m, nvl, mem), a);
  }

  // r is mem with the bytes of a in field m.
  lemma SameBytes(m: Mapping, other: Mapping, mem: Memory, r: Memory, a: Memory)
    requires |r.bytes| == |mem.bytes|
    requires Fits(m, mem) && Fits(m, a) && Fits(other, mem) && Fits(other, a)
    requires forall k :: 0 <= k < |mem.bytes| && !(m.offset <= k < m.offset + Width(m)) ==> r.bytes[k] == mem.bytes[k]
    requires Region(m, r) == Region(m, a) && Region(other, mem) == Region(other, a)
    ensures Region(other, r) == Region(other, a)
  {
    forall k | 0 <= k < Width(other) ensures Region(other, r)[k] == Region(other, a)[k] {
      var at := other.offset + k;
      if m.offset <= at < m.offset + Width(m) {
        assert Region(m, r)[at - m.offset] == Region(m, a)[at - m.offset];
      } else {
        assert Region(other, mem)[k] == Region(other, a)[k];
      }
    }
  }

  lemma {:induction false} EncodedEntry(table: seq<Mapping>, n: nat, mem: Memory, nvl: Nvlist, i: nat)
    requires Sound(table) && AllFit(table, mem) && i < n <= |table|
    ensures Entry(EncodeUpTo(table, n, mem, nvl), table[i], mem)
    decreases n
  {
    if i < n - 1 {
      EncodedEntry(table, n - 1, mem, nvl, i);
      assert Compatible(table[i], table[n - 1]);
    }
  }

  // The list has the values of all fields of a.
  ghost predicate Describes(nvl: Nvlist, table: seq<Mapping>, a: Memory)
    requires AllFit(table, a)
  {
    forall i {:trigger Entry(nvl, table[i], a)} :: 0 <= i < |table| ==> Entry(nvl, table[i], a)
  }

  predicate Entry(nvl: Nvlist, m: Mapping, a: Memory)
    requires Fits(m, a)
  {
    m.varname in nvl && nvl[m.varname] == Value(m, a)
  }

  lemma DecodesField(table: seq<Mapping>, n: nat, i: nat, nvl: Nvlist, before: Memory, after: Memory, a: Memory)
    requires Sound(table) && AllFit(table, a) && AllFit(table, before) && Terminated(table, a)
    requires i <= n < |table| && Entry(nvl, table[n], a) && (i < n ==> Restored(table[i], before, a))
    requires after == Get(table[n], nvl, before)
    ensures Restored(table[i], after, a)
  {
    assert EndsInside(table[n], a) && Width(table[n]) > 0 && Width(table[i]) > 0;
    GetRestores(table[n], nvl, before, a);
    if i == n { return; }
    assert Compatible(table[i], table[n]);
    if Disjoint(table[n], table[i]) {
      DisjointKeeps(table[n], table[i], nvl, before, a);
    } else {
      OverlapKeeps(table[n], table[i], nvl, before, a);
    }
  }

  // Induction on the number of entries decoded, for one field.
  lemma {:induction false} DecodedField(table: seq<Mapping>, n: nat, i: nat, nvl: Nvlist, mem: Memory, a: Memory)
    requires Sound(table) && AllFit(table, a) && AllFit(table, mem) && Terminated(table, a)
    requires i < n <= |table| && Describes(nvl, table, a)
    ensures Restored(table[i], DecodeUpTo(table, n, nvl, mem), a)
    decreases n
  {
    var before := DecodeUpTo(table, n - 1, nvl, mem);
    var after := DecodeUpTo(table, n, nvl, mem);
    assert Entry(nvl, table[n - 1], a);
    if i < n - 1 { DecodedField(table, n - 1, i, nvl, mem, a); }
    DecodesField(table, n - 1, i, nvl, before, after, a);
  }

  /** An entry that is missing or of another type changes no byte; a string pointer becomes NULL. */
  lemma MissingEntry(m: Mapping, nvl: Nvlist, mem: Memory)
    requires Fits(m, mem)
    requires m.varname in nvl ==>
      var v := nvl[m.varname];
      match m.kind
      case FixedString | DynamicString => !v.Text?
      case Boolean => !v.Bool?
      case Unsupported => true
      case _ => !v.Number?
    ensures Get(m, nvl, mem).bytes == mem.bytes
    ensures Get(m, nvl, mem).strings == if m.kind == DynamicString then mem.strings - {m.offset} else mem.strings
  {
  }

  /** The list has the names of the table up to its first unsupported type, and no others are
      touched. */
  lemma {:induction false} EncodedNames(table: seq<Mapping>, n: nat, mem: Memory, nvl: Nvlist, name: string)
    requires n <= |table| && AllFit(table, mem)
    ensures var r := EncodeUpTo(table, n, mem, nvl);
      (name in r <==> name in nvl || exists i :: 0 <= i < n && table[i].varname == name) &&
      (name in nvl && (forall i :: 0 <= i < n ==> table[i].varname != name) ==> r[name] == nvl[name])
    decreases n
  {
    if n > 0 { EncodedNames(table, n - 1, mem, nvl, name); }
  }

  lemma SoundIsSupported(table: seq<Mapping>)
    requires Sound(table)
    ensures Stop(table) == |table|
  {
    var n := Stop(table);
    assert n == |table| || 0 < Width(table[n]);
  }

  lemma EncodingDescribes(table: seq<Mapping>, n: nat, a: Memory, nvl: Nvlist)
    requires Sound(table) && AllFit(table, a) && n == |table|
    ensures Describes(EncodeUpTo(table, n, a, nvl), table, a)
  {
    var r := EncodeUpTo(table, n, a, nvl);
    forall k | 0 <= k < n ensures Entry(r, table[k], a) {
      EncodedEntry(table, n, a, nvl, k);
    }
  }

  /** Round trip through any sound table: every mapped field has its value back,
      whatever the structure held that is decoded into; numbers have all their bytes
      back, also those that overlap; a NULL string stays NULL. */
  lemma RoundTrip(table: seq<Mapping>, a: Memory, b: Memory, nvl: Nvlist, i: nat)
    requires Sound(table) && AllFit(table, a) && AllFit(table, b) && Terminated(table, a)
    requires i < |table|
    ensures Restored(table[i], Decode(table, Encode(table, a, nvl), b), a)
  {
    SoundIsSupported(table);
    EncodingDescribes(table, |table|, a, nvl);
    DecodedField(table, |table|, i, Encode(table, a, nvl), b, a);
  }

  // Decoding only depends on the entries of the table.
  lemma AllRestored(table: seq<Mapping>, a: Memory, b: Memory, nvl: Nvlist) returns (r: Memory)
    requires Sound(table) && AllFit(table, a) && AllFit(table, b) && Terminated(table, a)
    requires Describes(nvl, table, a)
    ensures r == Decode(table, nvl, b) && |r.bytes| == |b.bytes|
    ensures forall i {:trigger Restored(table[i], r, a)} :: 0 <= i < |table| ==> Restored(table[i], r, a)
  {
    SoundIsSupported(table);
    r := Decode(table, nvl, b);
    forall i | 0 <= i < |table| ensures Restored(table[i], r, a) {
      DecodedField(table, |table|, i, nvl, b, a);
    }
  }

  lemma DescribesMore(nvl: Nvlist, table: seq<Mapping>, a: Memory, name: string, v: NvValue)
    requires AllFit(table, a) && Describes(nvl, table, a)
    requires forall i :: 0 <= i < |table| ==> table[i].varname != name
    ensures Describes(nvl[name := v], table, a)
  {
    forall i | 0 <= i < |table| ensures Entry(nvl[name := v], table[i], a) {
      assert Entry(nvl, table[i], a);
    }
  }
}
