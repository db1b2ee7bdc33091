/** Bytes, C strings and the two ends of a stream socket that moves as many bytes a
    call as its schedule says.
  */
module Sockets {
  type byte = x: int | 0 <= x < 256

  // Position of the first zero byte, |s| if there is none: strlen and memchr.
  function FirstZero(s: seq<byte>): (i: nat)
    ensures i <= |s| && (i < |s| ==> s[i] == 0)
    ensures forall k :: 0 <= k < i ==> s[k] != 0
  {
    if s == [] || s[0] == 0 then 0 else 1 + FirstZero(s[1..])
  }

  predicate ZeroFree(s: seq<byte>) { 0 !in s }

  lemma FirstZeroOf(text: seq<byte>, rest: seq<byte>)
    requires ZeroFree(text)
    ensures FirstZero(text + [0] + rest) == |text|
  {
    var s := text + [0] + rest;
    assert s[|text|] == 0;
    assert forall k :: 0 <= k < |text| ==> s[k] == text[k] && text[k] in text;
  }

  function Min(a: nat, b: nat): nat { if a < b then a else b }

  // What a process writes; a call takes at most chunk(calls) bytes and 0 is a failure.
  class Writer {
    const chunk: nat -> nat
    var calls: nat
    var sent: seq<byte>

    constructor (chunk: nat -> nat)
      ensures this.chunk == chunk && sent == [] && calls == 0
    {
      this.chunk := chunk;
      calls := 0;
      sent := [];
    }

    method Write(buffer: seq<byte>) returns (n: nat)
      modifies this
      ensures n == Min(chunk(old(calls)), |buffer|) && calls == old(calls) + 1
      ensures sent == old(sent) + buffer[..n]
    {
      n := Min(chunk(calls), |buffer|);
      sent := sent + buffer[..n];
      calls := calls + 1;
    }
  }

  // What a process has yet to read; 0 is the end of the stream.
  class Reader {
    const chunk: nat -> nat
    var calls: nat
    var ready: seq<byte>

    constructor (chunk: nat -> nat, ready: seq<byte>)
      ensures this.chunk == chunk && this.ready == ready && calls == 0
    {
      this.chunk := chunk;
      calls := 0;
      this.ready := ready;
    }

    method Read(count: nat) returns (bytes: seq<byte>)
      modifies this
      ensures |bytes| == Min(chunk(old(calls)), Min(count, |old(ready)|)) && calls == old(calls) + 1
      ensures old(ready) == bytes + ready
    {
      var n := Min(chunk(calls), Min(count, |ready|));
      bytes := ready[..n];
      ready := ready[n..];
      calls := calls + 1;
    }
  }

  // Every call moves something.
  ghost predicate Flows(chunk: nat -> nat) { forall n: nat :: chunk(n) > 0 }

  // Reading goes on in a stream of which `got` bytes were read.
  lemma StreamAdvances(stream: seq<byte>, got: nat, bytes: seq<byte>, ready: seq<byte>)
    requires got <= |stream| && stream[got..] == bytes + ready
    ensures got + |bytes| <= |stream|
    ensures stream[..got + |bytes|] == stream[..got] + bytes && stream[got + |bytes|..] == ready
  {
    assert stream == stream[..got] + stream[got..] == stream[..got] + bytes + ready;
  }

  function Concat(parts: seq<seq<byte>>): seq<byte> {
    if parts == [] then [] else parts[0] + Concat(parts[1..])
  }

  lemma {:induction false} ConcatAppend(parts: seq<seq<byte>>, last: seq<byte>)
    ensures Concat(parts + [last]) == Concat(parts) + last
    decreases |parts|
  {
    if parts == [] {
      assert [last][1..] == [];
      assert Concat([]) == [] && [] + [last] == [last];
    } else {
      assert (parts + [last])[1..] == parts[1..] + [last];
      ConcatAppend(parts[1..], last);
    }
  }

  // bcopy
  method CopyInto(buffer: array<byte>, at: nat, bytes: seq<byte>)
    requires at + |bytes| <= buffer.Length
    modifies buffer
    ensures buffer[..] == old(buffer[..at]) + bytes + old(buffer[at + |bytes|..])
  {
    for i := 0 to |bytes|
      invariant buffer[..at] == old(buffer[..at]) && buffer[at..at + i] == bytes[..i]
      invariant buffer[at + i..] == old(buffer[at + i..])
    {
      buffer[at + i] := bytes[i];
    }
  }
}
