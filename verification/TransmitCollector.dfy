/** The collector of buffers for transmission: it copies them one behind the other and
    tells their lengths, from which the buffers can be cut out again.
  */
module TransmitCollecting {
  import opened Sockets

  function Lengths(parts: seq<seq<byte>>): (r: seq<nat>)
    ensures |r| == |parts| && forall i :: 0 <= i < |parts| ==> r[i] == |parts[i]|
  {
    if parts == [] then [] else [|parts[0]|] + Lengths(parts[1..])
  }

  function Sum(lengths: seq<nat>): nat {
    if lengths == [] then 0 else lengths[0] + Sum(lengths[1..])
  }

  // Pieces of these lengths, in order.
  function Cut(bytes: seq<byte>, lengths: seq<nat>): seq<seq<byte>>
    requires Sum(lengths) <= |bytes|
    decreases lengths
  {
    if lengths == [] then [] else [bytes[..lengths[0]]] + Cut(bytes[lengths[0]..], lengths[1..])
  }

  /** The lengths add up to the size, and cutting the concatenation at the lengths
      gives the buffers back. */
  lemma {:induction false} CutRestores(parts: seq<seq<byte>>)
    ensures Sum(Lengths(parts)) == |Concat(parts)|
    ensures Cut(Concat(parts), Lengths(parts)) == parts
    decreases |parts|
  {
    if parts != [] {
      CutRestores(parts[1..]);
      assert Lengths(parts)[1..] == Lengths(parts[1..]);
      assert Concat(parts)[|parts[0]|..] == Concat(parts[1..]);
      assert Concat(parts)[..|parts[0]|] == parts[0];
    }
  }

  lemma {:induction false} ConcatSplit(parts: seq<seq<byte>>, i: nat)
    requires i < |parts|
    ensures Concat(parts[..i + 1]) == Concat(parts[..i]) + parts[i]
    ensures |Concat(parts[..i + 1])| <= |Concat(parts)|
    ensures Lengths(parts)[..i + 1] == Lengths(parts)[..i] + [|parts[i]|]
  {
    assert parts[..i + 1] == parts[..i] + [parts[i]];
    ConcatAppend(parts[..i], parts[i]);
    PrefixIsShorter(parts, i + 1);
  }

  lemma {:induction false} PrefixIsShorter(parts: seq<seq<byte>>, i: nat)
    requires i <= |parts|
    ensures |Concat(parts[..i])| <= |Concat(parts)|
    decreases |parts|
  {
    if i > 0 {
      assert parts[..i][1..] == parts[1..][..i - 1];
      PrefixIsShorter(parts[1..], i - 1);
    }
  }

  lemma NothingYet(parts: seq<seq<byte>>)
    ensures |Concat(parts[..0])| == 0 && |Lengths(parts)| == |parts|
  {
    assert parts[..0] == [];
  }

  // A sequence with its front overwritten.
  function Over<T>(s: seq<T>, front: seq<T>): seq<T>
    requires |front| <= |s|
  {
    front + s[|front|..]
  }

  lemma OverGrows<T>(s: seq<T>, front: seq<T>, more: seq<T>)
    requires |front| + |more| <= |s|
    ensures var t := Over(s, front);
      Over(s, front + more) == t[..|front|] + more + t[|front| + |more|..]
  {
  }

  class TransmitCollector {
    var items: seq<seq<byte>>

    ghost predicate Valid()
      reads this
    {
      forall i :: 0 <= i < |items| ==> items[i] != []
    }

    // stc_new
    constructor ()
      ensures Valid() && items == []
    {
      items := [];
    }

    // stc_store_transmit
    method StoreTransmit(buffer: seq<byte>) returns (rc: int)
      requires Valid()
      modifies this
      ensures Valid() && rc == (if buffer == [] then -1 else 0)
      ensures items == if buffer == [] then old(items) else old(items) + [buffer]
    {
      if |buffer| == 0 { return -1; }
      items := items + [buffer];
      return 0;
    }

    // stc_getbuffercount
    method GetBufferCount() returns (total: nat)
      ensures total == |items|
    {
      total := 0;
      for i := 0 to |items|
        invariant total == i
      {
        total := total + 1;
      }
    }

    // stc_getbuffersize
    method GetBufferSize() returns (total: nat)
      ensures total == |Concat(items)|
    {
      total := 0;
      for i := 0 to |items|
        invariant total == |Concat(items[..i])|
      {
        ConcatSplit(items, i);
        total := total + |items[i]|;
      }
      assert items[..|items|] == items;
    }

    // stc_collect
    method Collect(buffer: array<byte>, bufferLens: array<nat>) returns (rc: int)
      requires Valid()
      modifies buffer, bufferLens
      ensures rc == 0 <==>
        0 < buffer.Length && 0 < bufferLens.Length &&
        |Concat(items)| <= buffer.Length && |items| <= bufferLens.Length
      ensures rc == 0 ==>
        buffer[..] == Over(old(buffer[..]), Concat(items)) &&
        bufferLens[..] == Over(old(bufferLens[..]), Lengths(items))
      ensures rc != 0 ==> rc == -1 && buffer[..] == old(buffer[..]) && bufferLens[..] == old(bufferLens[..])
    {
      hide Concat, Lengths;
      if buffer.Length == 0 || bufferLens.Length == 0 { return -1; }
      var size := GetBufferSize();
      var count := GetBufferCount();
      if buffer.Length < size || bufferLens.Length < count { return -1; }
      Gather(buffer, bufferLens);
      return 0;
    }

    // The loop of stc_collect.
    method Gather(buffer: array<byte>, bufferLens: array<nat>)
      requires |Concat(items)| <= buffer.Length && |items| <= bufferLens.Length
      modifies buffer, bufferLens
      ensures buffer[..] == Over(old(buffer[..]), Concat(items))
      ensures |Lengths(items)| == |items| && bufferLens[..] == Over(old(bufferLens[..]), Lengths(items))
    {
      hide Concat, Lengths;
      var offset := 0;
      NothingYet(items);
      for counter := 0 to |items|
        invariant offset == |Concat(items[..counter])| <= |Concat(items)|
        invariant |Lengths(items)| == |items|
        invariant buffer[..] == Over(old(buffer[..]), Concat(items[..counter]))
        invariant bufferLens[..] == Over(old(bufferLens[..]), Lengths(items)[..counter])
      {
        ConcatSplit(items, counter);
        OverGrows(old(buffer[..]), Concat(items[..counter]), items[counter]);
        OverGrows(old(bufferLens[..]), Lengths(items)[..counter], [|items[counter]|]);
        CopyInto(buffer, offset, items[counter]);
        SetLength(bufferLens, counter, |items[counter]|);
        offset := offset + |items[counter]|;
      }
      assert items[..|items|] == items && Lengths(items)[..|items|] == Lengths(items);
    }
  }

  method SetLength(bufferLens: array<nat>, at: nat, length: nat)
    requires at < bufferLens.Length
    modifies bufferLens
    ensures bufferLens[..] == old(bufferLens[..at]) + [length] + old(bufferLens[at + 1..])
  {
    bufferLens[at] := length;
  }
}
