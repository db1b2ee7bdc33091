/** Replies on the control socket: the reply collector, the blob with its length in
    front as the daemon writes it, and the way the client reads it back, both ends
    with any number of bytes a call.
  */
module Replies {
  import opened Wrappers
  import opened Sockets
  import opened TransmitCollecting
  import Texts

  // ---- numbers in text ----------------------------------------------------------

  predicate IsDigit(b: byte) { 48 <= b <= 57 }

  // printf %ld of a number that is not negative
  function Digits(n: nat): (r: seq<byte>)
    ensures r != [] && forall i :: 0 <= i < |r| ==> IsDigit(r[i])
  {
    var s := Texts.Decimal(n);
    seq(|s|, i requires 0 <= i < |s| => assert Texts.IsDigit(s[i]); s[i] as byte)
  }

  lemma DigitsUnfold(n: nat)
    ensures Digits(n) == if n < 10 then [48 + n] else Digits(n / 10) + [48 + n % 10]
  {
  }

  // atoll from the first digit on
  function Number(text: seq<byte>, acc: nat): nat
    decreases text
  {
    if text == [] || !IsDigit(text[0]) then acc else Number(text[1..], acc * 10 + (text[0] - 48))
  }

  lemma {:induction false} NumberAppend(a: seq<byte>, b: seq<byte>, acc: nat)
    requires forall i :: 0 <= i < |a| ==> IsDigit(a[i])
    ensures Number(a + b, acc) == Number(b, Number(a, acc))
    decreases a
  {
    if a == [] {
      assert a + b == b;
    } else {
      assert (a + b)[1..] == a[1..] + b;
      NumberAppend(a[1..], b, acc * 10 + (a[0] - 48));
    }
  }

  /** Reading back a printed number, whatever follows its zero byte. */
  lemma {:induction false} NumberOfDigits(n: nat, rest: seq<byte>)
    requires rest == [] || !IsDigit(rest[0])
    ensures Number(Digits(n) + rest, 0) == n
    decreases n
  {
    hide Digits;
    DigitsUnfold(n);
    NumberAppend(Digits(n), rest, 0);
    assert Number(rest, Number(Digits(n), 0)) == Number(Digits(n), 0);
    if n < 10 {
      assert [48 + n][1..] == [];
    } else {
      NumberOfDigits(n / 10, []);
      assert Digits(n / 10) + [] == Digits(n / 10);
      NumberAppend(Digits(n / 10), [48 + n % 10], 0);
      assert [48 + n % 10][1..] == [];
    }
  }

  const DATA: seq<byte> := [68, 65, 84, 65]

  // The reply on the wire.
  function Header(n: nat): seq<byte> { DATA + [32] + Digits(n) }
  function Reply(blob: seq<byte>): seq<byte> { Header(|blob|) + [0] + blob }

  function Power(k: nat): nat { if k == 0 then 1 else 10 * Power(k - 1) }

  lemma {:induction false} DigitsAreFew(n: nat, k: nat)
    requires 0 < k && n < Power(k)
    ensures |Digits(n)| <= k
    decreases k
  {
    hide Digits;
    DigitsUnfold(n);
    if n >= 10 {
      assert k > 1 by { assert Power(1) == 10 * Power(0); }
      DigitsAreFew(n / 10, k - 1);
    }
  }

  lemma PowerOf19()
    ensures Power(19) == 10_000_000_000_000_000_000
  {
    assert Power(4) == 10 * (10 * (10 * (10 * Power(0))));
    assert Power(8) == 10 * (10 * (10 * (10 * Power(4))));
    assert Power(12) == 10 * (10 * (10 * (10 * Power(8))));
    assert Power(16) == 10 * (10 * (10 * (10 * Power(12))));
    assert Power(19) == 10 * (10 * (10 * Power(16)));
  }

  /** The 128 bytes of the header buffer hold every length. */
  lemma HeaderFits(n: nat)
    requires n < 0x8000_0000_0000_0000
    ensures |Header(n)| + 1 <= 128
  {
    PowerOf19();
    DigitsAreFew(n, 19);
  }

  // ---- the daemon ------------------------------------------------------------------

  class ReplyCollector {
    const stc: TransmitCollector
    var shortReply: Option<seq<byte>>
    var collectedBuffer: Option<seq<byte>>

    ghost predicate Valid()
      reads this, stc
    {
      stc.Valid()
    }

    // src_new
    constructor ()
      ensures Valid() && stc.items == [] && shortReply == None && fresh(stc)
    {
      stc := new TransmitCollector();
      shortReply := None;
      collectedBuffer := None;
    }

    // src_reply
    method AddReply(buffer: seq<byte>) returns (rc: int)
      requires Valid()
      modifies stc
      ensures Valid() && rc == (if buffer == [] then -1 else 0)
      ensures stc.items == if buffer == [] then old(stc.items) else old(stc.items) + [buffer]
    {
      rc := stc.StoreTransmit(buffer);
    }

    // src_short_reply: the first one stays.
    method ShortReply(reply: seq<byte>) returns (rc: int)
      modifies this
      ensures collectedBuffer == old(collectedBuffer)
      ensures shortReply == Some(if old(shortReply).Some? then old(shortReply).value else reply)
      ensures rc == if old(shortReply).Some? then 1 else 0
    {
      if shortReply.Some? { return 1; }
      shortReply := Some(reply);
      return 0;
    }

    // src_has_reply
    method HasReply() returns (has: bool)
      requires Valid()
      ensures has <==> stc.items != []
    {
      var size := stc.GetBufferSize();
      has := size != 0;
    }

    lemma EmptyCollection()
      requires Valid()
      ensures Concat(stc.items) == [] <==> stc.items == []
    {
    }

    // src_get_reply: None without a reply
    method GetReply() returns (reply: Option<seq<byte>>)
      requires Valid()
      modifies this
      ensures Valid() && shortReply == old(shortReply)
      ensures reply == collectedBuffer == if stc.items == [] then None else Some(Concat(stc.items))
    {
      collectedBuffer := None;
      var count := stc.GetBufferCount();
      var size := stc.GetBufferSize();
      var lengths := new nat[count];
      var buffer := new byte[size];
      EmptyCollection();
      var rc := stc.Collect(buffer, lengths);
      if rc != 0 { return None; }
      assert buffer[..] == Concat(stc.items);
      collectedBuffer := Some(buffer[..]);
      return collectedBuffer;
    }
  }

  // The write loop of sh_reply_msg and sh_reply_data.
  method WriteAll(socket: Writer, bytes: seq<byte>) returns (total: nat)
    modifies socket
    ensures total <= |bytes| && socket.sent == old(socket.sent) + bytes[..total]
    ensures Flows(socket.chunk) ==> total == |bytes|
  {
    total := 0;
    var left := |bytes|;
    while left > 0
      invariant 0 <= left && total + left == |bytes| && socket.sent == old(socket.sent) + bytes[..total]
      decreases left
    {
      var n := socket.Write(bytes[total..total + left]);
      if n == 0 { break; }
      assert bytes[..total + n] == bytes[..total] + bytes[total..total + left][..n];
      left := left - n;
      total := total + n;
    }
  }

  // A message was written only in part, and without its zero byte.
  ghost predicate BrokenOff(before: seq<byte>, after: seq<byte>, msg: seq<byte>) {
    exists k :: 0 <= k <= |msg| && after == before + msg[..k]
  }

  // sh_reply_msg
  method ReplyMsg(socket: Writer, msg: seq<byte>) returns (rc: int)
    modifies socket
    ensures rc == 0 || rc == -1
    ensures rc == 0 ==> socket.sent == old(socket.sent) + msg + [0]
    ensures rc == -1 ==> BrokenOff(old(socket.sent), socket.sent, msg)
    ensures Flows(socket.chunk) ==> rc == 0
  {
    var total := WriteAll(socket, msg + [0]);
    if total == |msg| + 1 {
      assert (msg + [0])[..total] == msg + [0];
      return 0;
    }
    assert (msg + [0])[..total] == msg[..total];
    return -1;
  }

  // ---- short replies --------------------------------------------------------------------

  function ZeroDigits(n: nat): (z: seq<byte>)
    ensures |z| == n
  {
    seq(n, _ => 48)
  }

  // printf %04ld
  function Code(n: int): seq<byte> {
    if n >= 0 then ZeroDigits(if |Digits(n)| < 4 then 4 - |Digits(n)| else 0) + Digits(n)
    else [45] + ZeroDigits(if |Digits(-n)| < 3 then 3 - |Digits(-n)| else 0) + Digits(-n)
  }

  const OK_TEXT: seq<byte> := [79, 75]
  const NOK_TEXT: seq<byte> := [78, 79, 75]
  const COLON: seq<byte> := [58, 32]

  // What snprintf keeps in a buffer of 1024 bytes.
  function Fitted(s: seq<byte>): seq<byte> { if |s| < 1024 then s else s[..1023] }

  function ShortText(errcode: int, msg: seq<byte>): seq<byte> { Fitted(Code(errcode) + COLON + msg) }

  function GenericText(errcode: int): seq<byte> {
    ShortText(errcode, if errcode == 0 then OK_TEXT else NOK_TEXT)
  }

  // sh_reply_shortmsg
  method ReplyShortMsg(socket: Writer, errcode: int, msg: seq<byte>) returns (rc: int)
    modifies socket
    ensures rc == 0 || rc == -1
    ensures rc == 0 ==> socket.sent == old(socket.sent) + ShortText(errcode, msg) + [0]
    ensures rc == -1 ==> BrokenOff(old(socket.sent), socket.sent, ShortText(errcode, msg))
    ensures Flows(socket.chunk) ==> rc == 0
  {
    rc := ReplyMsg(socket, ShortText(errcode, msg));
  }

  // sh_reply_genericmsg
  method ReplyGenericMsg(socket: Writer, errcode: int) returns (rc: int)
    modifies socket
    ensures rc == 0 || rc == -1
    ensures rc == 0 ==> socket.sent == old(socket.sent) + GenericText(errcode) + [0]
    ensures rc == -1 ==> BrokenOff(old(socket.sent), socket.sent, GenericText(errcode))
    ensures Flows(socket.chunk) ==> rc == 0
  {
    rc := ReplyMsg(socket, GenericText(errcode));
  }

  lemma {:induction false} LeadingZeros(n: nat, rest: seq<byte>)
    ensures Number(ZeroDigits(n) + rest, 0) == Number(rest, 0)
    decreases n
  {
    if n == 0 {
      assert ZeroDigits(0) + rest == rest;
    } else {
      assert (ZeroDigits(n) + rest)[1..] == ZeroDigits(n - 1) + rest;
      LeadingZeros(n - 1, rest);
    }
  }

  // atoll
  function SignedNumber(text: seq<byte>): int {
    if text != [] && text[0] == 45 then 0 - Number(text[1..], 0) else Number(text, 0)
  }

  // A number with leading zeros in front of something that is no digit.
  lemma PaddedNumber(z: nat, n: nat, rest: seq<byte>)
    requires rest != [] && !IsDigit(rest[0])
    ensures Number(ZeroDigits(z) + Digits(n) + rest, 0) == n
  {
    hide Digits, Number;
    assert ZeroDigits(z) + Digits(n) + rest == ZeroDigits(z) + (Digits(n) + rest);
    LeadingZeros(z, Digits(n) + rest);
    NumberOfDigits(n, rest);
  }

  // The code is a sign and a padded number that the buffer holds.
  lemma CodeParts(n: int, msg: seq<byte>) returns (z: nat, rest: seq<byte>)
    requires -0x8000_0000_0000_0000 <= n < 0x8000_0000_0000_0000
    ensures Code(n) == (if n >= 0 then [] else [45]) + (ZeroDigits(z) + Digits(if n >= 0 then n else -n))
    ensures ShortText(n, msg) == Code(n) + rest && |Code(n)| >= 4 && rest != [] && rest[0] == 58
  {
    hide Digits, ZeroDigits, Code;
    z := CodeIsPadded(n);
    FittedFront(Code(n) + COLON, msg);
    rest := ShortText(n, msg)[|Code(n)|..];
    assert ShortText(n, msg)[..|Code(n)| + 2] == Code(n) + COLON;
  }

  lemma CodeIsPadded(n: int) returns (z: nat)
    requires -0x8000_0000_0000_0000 <= n < 0x8000_0000_0000_0000
    ensures Code(n) == (if n >= 0 then [] else [45]) + (ZeroDigits(z) + Digits(if n >= 0 then n else -n))
    ensures 4 <= |Code(n)| <= 23
  {
    hide Digits, Power;
    var m := if n >= 0 then n else -n;
    PowerOf19();
    DigitsAreFew(m, 19);
    var width := if n >= 0 then 4 else 3;
    z := if |Digits(m)| < width then width - |Digits(m)| else 0;
    assert [] + (ZeroDigits(z) + Digits(m)) == ZeroDigits(z) + Digits(m);
    assert [45] + ZeroDigits(z) + Digits(m) == [45] + (ZeroDigits(z) + Digits(m));
  }

  lemma FittedFront(front: seq<byte>, msg: seq<byte>)
    requires |front| <= 1023
    ensures |Fitted(front + msg)| >= |front| && Fitted(front + msg)[..|front|] == front
  {
  }

  /** A short reply tells its code, for every signed 64 bit number: it is the number in
      front, and no short reply looks like a blob to the client. */
  lemma CodeIsRead(n: int, msg: seq<byte>)
    requires -0x8000_0000_0000_0000 <= n < 0x8000_0000_0000_0000
    ensures SignedNumber(ShortText(n, msg)) == n
    ensures |ShortText(n, msg)| >= 4 && ShortText(n, msg)[..4] != DATA
  {
    hide Digits, Number, ZeroDigits, Code, ShortText;
    var z, rest := CodeParts(n, msg);
    var (text, m) := (ShortText(n, msg), if n >= 0 then n else -n);
    PaddedNumber(z, m, rest);
    FirstIsDigit(z, m);
    var number := ZeroDigits(z) + Digits(m);
    if n >= 0 {
      assert text == number + rest && text[0] == number[0];
    } else {
      assert text == [45] + (number + rest);
    }
    assert text[..4][0] == text[0];
  }

  lemma FirstIsDigit(z: nat, n: nat)
    ensures IsDigit((ZeroDigits(z) + Digits(n))[0])
  {
  }

  // ---- the blob ----------------------------------------------------------------------------

  // sh_reply_data; `aborted` when one of its assertions fails.
  method ReplyData(socket: Writer, src: ReplyCollector) returns (rc: int, aborted: bool)
    requires src.Valid()
    modifies socket, src
    ensures src.Valid() && src.stc.items == old(src.stc.items)
    ensures src.stc.items == [] ==> rc == -1 && socket.sent == old(socket.sent)
    ensures src.stc.items != [] && !aborted ==>
      rc == 0 && socket.sent == old(socket.sent) + Reply(Concat(src.stc.items))
    ensures Flows(socket.chunk) ==> !aborted
  {
    rc, aborted := 0, false;
    var reply := src.GetReply();
    if reply.None? { return -1, false; }
    var buffer := reply.value;
    var datastr := Header(|buffer|);
    var total := WriteAll(socket, datastr + [0]);
    if total != |datastr| + 1 { return -1, true; }
    assert (datastr + [0])[..total] == datastr + [0];
    total := WriteAll(socket, buffer);
    if total != |buffer| { return -1, true; }
    assert buffer[..total] == buffer;
  }

  // ---- the client ---------------------------------------------------------------------

  // The read loops that wait for a known number of bytes.
  method ReadFully(socket: Reader, count: nat) returns (bytes: seq<byte>)
    modifies socket
    ensures |bytes| <= count && old(socket.ready) == bytes + socket.ready
    ensures Flows(socket.chunk) && |old(socket.ready)| >= count ==> |bytes| == count
  {
    bytes := [];
    while |bytes| < count
      invariant |bytes| <= count && old(socket.ready) == bytes + socket.ready
      decreases count - |bytes|
    {
      var more := socket.Read(count - |bytes|);
      if |more| == 0 { break; }
      bytes := bytes + more;
    }
  }

  method PutByte(retbuffer: array<byte>, at: nat, b: byte)
    requires 4 <= at < retbuffer.Length
    modifies retbuffer
    ensures retbuffer[at] == b && retbuffer[4..at + 1] == old(retbuffer[4..at]) + [b]
  {
    retbuffer[at] := b;
  }

  // The loop that reads the rest of the header byte by byte into the reply buffer
  // from index 4 on; false when the buffer is full before a zero byte came.
  method ReadHeader(socket: Reader, retbuffer: array<byte>) returns (ok: bool)
    requires retbuffer.Length > 4
    modifies socket, retbuffer
    ensures var (stream, z) := (old(socket.ready), FirstZero(old(socket.ready)));
      Flows(socket.chunk) && z < |stream| ==>
        (ok <==> 4 + z < retbuffer.Length) &&
        (ok ==> retbuffer[4..4 + z + 1] == stream[..z + 1] && socket.ready == stream[z + 1..])
    ensures |socket.ready| <= |old(socket.ready)|
  {
    hide FirstZero;
    var total := 4;
    ghost var stream := socket.ready;
    while true
      invariant 4 <= total < retbuffer.Length && total - 4 <= FirstZero(stream)
      invariant socket.ready == stream[total - 4..] && retbuffer[4..total] == stream[..total - 4]
      decreases |socket.ready|
    {
      var b := socket.Read(1);
      if |b| == 0 { break; }
      StreamAdvances(stream, total - 4, b, socket.ready);
      assert b[0] == stream[..total - 3][total - 4];
      PutByte(retbuffer, total, b[0]);
      if b[0] == 0 { break; }
      total := total + 1;
      if total >= retbuffer.Length { return false; }
    }
    return true;
  }

  lemma WholeText(ret: seq<byte>, check: seq<byte>, stream: seq<byte>)
    requires |check| == 4 && 4 + |stream| <= |ret| && 0 in check + stream
    requires ret[..4] == check && ret[4..4 + |stream|] == stream
    ensures ret[..4 + |stream|] == check + stream && 0 in ret
  {
    assert ret[..4 + |stream|] == ret[..4] + ret[4..4 + |stream|];
    var k :| 0 <= k < 4 + |stream| && (check + stream)[k] == 0;
    assert ret[k] == 0;
  }

  datatype Received =
    | Blob(bytes: seq<byte>)     // a binary reply
    | Text                       // another reply, in the reply buffer
    | Failed                     // the header did not fit the reply buffer
    | Aborted                    // the stream ended inside the blob

  // A reply that is no blob: the loop reads to index 4 again and again until there is
  // a zero byte somewhere in the buffer, so it is right when one read brings the rest.
  method ReadText(socket: Reader, retbuffer: array<byte>, check: seq<byte>)
    requires retbuffer.Length > 4 && |check| <= 4
    modifies socket, retbuffer
    ensures var stream := old(socket.ready);
      |check| == 4 && 0 in check + stream &&
      |stream| <= retbuffer.Length - 4 && |stream| <= socket.chunk(old(socket.calls)) ==>
        retbuffer[..4 + |stream|] == check + stream
  {
    CopyInto(retbuffer, 0, check + seq(4 - |check|, _ => 0));
    ghost var stream := socket.ready;
    ghost var first := socket.calls;
    ghost var whole := |check| == 4 && 0 in check + stream &&
      |stream| <= retbuffer.Length - 4 && |stream| <= socket.chunk(first);
    while true
      invariant |check| == 4 ==> retbuffer[..4] == check
      invariant first <= socket.calls && (whole ==> socket.calls == first && socket.ready == stream)
      decreases |socket.ready|
    {
      var more := socket.Read(retbuffer.Length - 4);
      if |more| == 0 { break; }
      CopyInto(retbuffer, 4, more);
      if whole {
        assert more == stream;
        WholeText(retbuffer[..], check, stream);
      }
      if 0 in retbuffer[..] { break; }
    }
  }

  // A reply that ends with a zero byte somewhere, is no blob and fits the reply buffer.
  predicate IsTextReply(text: seq<byte>, room: nat) { 4 <= |text| <= room && text[..4] != DATA && 0 in text }

  // Every read brings all that is left of n bytes.
  ghost predicate AtOnce(chunk: nat -> nat, n: nat) { n > 0 && forall k: nat :: chunk(k) >= n }

  // The part of sc_sendrecv_dynamic after the request was sent. The reply buffer
  // has to be larger than the four bytes that are looked at first.
  method ReceiveReply(socket: Reader, retbuffer: array<byte>, ghost blob: seq<byte>, ghost rest: seq<byte>)
    returns (r: Received)
    requires retbuffer.Length > 4
    modifies socket, retbuffer
    ensures Flows(socket.chunk) && old(socket.ready) == Reply(blob) + rest ==>
      (r.Blob? <==> |Header(|blob|)| < retbuffer.Length) &&
      (r.Blob? ==> r.bytes == blob && socket.ready == rest)
    ensures Flows(socket.chunk) && |old(socket.ready)| >= 4 && old(socket.ready)[..4] != DATA ==> r == Text
    ensures IsTextReply(old(socket.ready), retbuffer.Length) && AtOnce(socket.chunk, |old(socket.ready)|) ==>
      r == Text && retbuffer[..|old(socket.ready)|] == old(socket.ready)
  {
    ghost var text := socket.ready;
    var check := ReadFully(socket, 4);
    assert text == check + socket.ready;
    assert Flows(socket.chunk) && |old(socket.ready)| >= 4 ==> check == old(socket.ready)[..4];
    if Flows(socket.chunk) && old(socket.ready) == Reply(blob) + rest {
      ReplyStarts(check, socket.ready, blob, rest);
    }
    if check != DATA {
      ReadText(socket, retbuffer, check);
      return Text;
    }
    r := ReceiveBlob(socket, retbuffer, blob, rest);
  }

  method ReceiveBlob(socket: Reader, retbuffer: array<byte>, ghost blob: seq<byte>, ghost rest: seq<byte>)
    returns (r: Received)
    requires retbuffer.Length > 4
    modifies socket, retbuffer
    ensures Flows(socket.chunk) && old(socket.ready) == [32] + Digits(|blob|) + [0] + (blob + rest) ==>
      (r.Blob? <==> 5 + |Digits(|blob|)| < retbuffer.Length) &&
      (r.Blob? ==> r.bytes == blob && socket.ready == rest)
  {
    ghost var expected := Flows(socket.chunk) && socket.ready == [32] + Digits(|blob|) + [0] + (blob + rest);
    if expected { HeaderEnds(blob, rest, socket.ready); }
    var ok := ReadHeader(socket, retbuffer);
    if !ok { return Failed; }
    if expected {
      HeaderNumber(retbuffer[..], blob);
      assert socket.ready == blob + rest;
    }
    var bloblen := Number(retbuffer[..][5..], 0);
    var bytes := ReadFully(socket, bloblen);
    if expected { SameParts(bytes, socket.ready, blob, rest); }
    r := if |bytes| == bloblen then Blob(bytes) else Aborted;
  }

  lemma ReplyStarts(check: seq<byte>, ready: seq<byte>, blob: seq<byte>, rest: seq<byte>)
    requires check + ready == Reply(blob) + rest && |check| == 4
    ensures check == DATA && ready == [32] + Digits(|blob|) + [0] + (blob + rest)
  {
    var tail := [32] + Digits(|blob|) + [0] + (blob + rest);
    Regroup(DATA, [32], Digits(|blob|), [0], blob, rest);
    SameParts(check, ready, DATA, tail);
  }

  lemma Regroup(a: seq<byte>, b: seq<byte>, c: seq<byte>, d: seq<byte>, e: seq<byte>, f: seq<byte>)
    ensures ((a + b + c) + d + e) + f == a + (b + c + d + (e + f))
  {
  }

  lemma SameParts(a: seq<byte>, b: seq<byte>, c: seq<byte>, d: seq<byte>)
    requires a + b == c + d && |a| == |c|
    ensures a == c && b == d
  {
    assert a == (a + b)[..|a|] == (c + d)[..|c|] == c;
    assert b == (a + b)[|a|..] == (c + d)[|c|..] == d;
  }

  lemma HeaderEnds(blob: seq<byte>, rest: seq<byte>, stream: seq<byte>)
    requires stream == [32] + Digits(|blob|) + [0] + (blob + rest)
    ensures FirstZero(stream) == 1 + |Digits(|blob|)|
    ensures stream[..2 + |Digits(|blob|)|] == [32] + Digits(|blob|) + [0]
    ensures stream[2 + |Digits(|blob|)|..] == blob + rest
  {
    FirstZeroOf([32] + Digits(|blob|), blob + rest);
  }

  lemma HeaderNumber(ret: seq<byte>, blob: seq<byte>)
    requires var d := |Digits(|blob|)|;
      6 + d <= |ret| && ret[4..6 + d] == [32] + Digits(|blob|) + [0]
    ensures Number(ret[5..], 0) == |blob|
  {
    hide Digits, Number;
    var d := Digits(|blob|);
    var after := [0] + ret[6 + |d|..];
    assert ret[5..6 + |d|] == ret[4..6 + |d|][1..] == d + [0];
    assert ret[5..] == ret[5..6 + |d|] + ret[6 + |d|..] == d + after;
    NumberOfDigits(|blob|, after);
  }

  // ---- the reply to a command ---------------------------------------------------------------

  // The text of the reply to a command that returned `errcode`, digit by digit.
  function ReplyText(errcode: int): seq<byte>
    requires -999 <= errcode <= 9999
  {
    if errcode == 0 then [48, 48, 48, 48, 58, 32, 79, 75]
    else
      var m := if errcode > 0 then errcode else -errcode;
      var first: byte := if errcode > 0 then 48 + m / 1000 else 45;
      [first, 48 + m / 100 % 10, 48 + m / 10 % 10, 48 + m % 10, 58, 32, 78, 79, 75]
  }

  lemma DigitsOfHundreds(m: nat)
    requires m < 1000
    ensures ZeroDigits(if |Digits(m)| < 3 then 3 - |Digits(m)| else 0) + Digits(m) ==
      [48 + m / 100 % 10, 48 + m / 10 % 10, 48 + m % 10]
    ensures |Digits(m)| <= 3
  {
    DigitsUnfold(m);
    DigitsUnfold(m / 10);
    DigitsUnfold(m / 10 / 10);
    assert m / 10 / 10 == m / 100;
  }

  lemma CodeIsSpelled(errcode: int)
    requires -999 <= errcode <= 9999
    ensures var m := if errcode >= 0 then errcode else -errcode;
      Code(errcode) == [if errcode >= 0 then 48 + m / 1000 else 45, 48 + m / 100 % 10, 48 + m / 10 % 10, 48 + m % 10]
  {
    hide Digits;
    var m := if errcode >= 0 then errcode else -errcode;
    if m < 1000 {
      DigitsOfHundreds(m);
      var z := if |Digits(m)| < 3 then 3 - |Digits(m)| else 0;
      assert ZeroDigits(z + 1) + Digits(m) == [48] + (ZeroDigits(z) + Digits(m));
      assert [45] + ZeroDigits(z) + Digits(m) == [45] + (ZeroDigits(z) + Digits(m));
    } else {
      ThousandsSpelled(m);
    }
  }

  lemma ThousandsSpelled(m: nat)
    requires 1000 <= m <= 9999
    ensures Digits(m) == [48 + m / 1000, 48 + m / 100 % 10, 48 + m / 10 % 10, 48 + m % 10]
    ensures ZeroDigits(0) + Digits(m) == Digits(m)
  {
    DigitsUnfold(m);
    DigitsUnfold(m / 10);
    DigitsUnfold(m / 10 / 10);
    DigitsUnfold(m / 10 / 10 / 10);
    assert m / 10 / 10 == m / 100 && m / 10 / 10 / 10 == m / 1000;
  }

  /** The reply to a command, byte by byte: "0000: OK" for code 0 and the code in four places
      with ": NOK" behind it for any other. */
  lemma GenericTextIsSpelled(errcode: int)
    requires -999 <= errcode <= 9999
    ensures GenericText(errcode) == ReplyText(errcode)
  {
    hide Code;
    CodeIsSpelled(errcode);
    assert GenericText(errcode) == Code(errcode) + COLON + if errcode == 0 then OK_TEXT else NOK_TEXT;
  }

  /** A short reply is its code, a colon and a space, and the message, cut at 1023 bytes in all. */
  lemma MessageFollows(n: int, msg: seq<byte>) returns (k: nat)
    requires -0x8000_0000_0000_0000 <= n < 0x8000_0000_0000_0000
    ensures var (text, tail) := (ShortText(n, msg), [58, 32] + msg);
      k < |text| && 58 !in text[..k] && SignedNumber(text[..k]) == n &&
      text[k..] == if k + |tail| <= 1023 then tail else tail[..1023 - k]
  {
    hide Digits, Number, Code;
    var z := CodeIsPadded(n);
    k := |Code(n)|;
    var (text, whole) := (ShortText(n, msg), Code(n) + COLON + msg);
    assert whole == Code(n) + ([58, 32] + msg);
    assert text[..k] == Code(n);
    CodeAlone(n, z);
  }

  /** A blob reply starts with "DATA ", the length in decimal digits and a zero byte. */
  lemma ReplyIsSpelled(blob: seq<byte>) returns (k: nat)
    ensures k > 5 && k < |Reply(blob)| && Reply(blob)[..5] == [68, 65, 84, 65, 32]
    ensures Number(Reply(blob)[5..k], 0) == |blob| && (forall i :: 5 <= i < k ==> IsDigit(Reply(blob)[i]))
    ensures Reply(blob)[k..] == [0] + blob
  {
    hide Digits, Number;
    k := 5 + |Digits(|blob|)|;
    var digits := Digits(|blob|);
    assert Reply(blob) == [68, 65, 84, 65, 32] + digits + ([0] + blob);
    assert Reply(blob)[5..k] == digits + [];
    NumberOfDigits(|blob|, []);
  }

  lemma CodeAlone(n: int, z: nat)
    requires Code(n) == (if n >= 0 then [] else [45]) + (ZeroDigits(z) + Digits(if n >= 0 then n else -n))
    ensures 58 !in Code(n) && SignedNumber(Code(n)) == n
  {
    hide Digits, Code;
    var m := if n >= 0 then n else -n;
    var number := ZeroDigits(z) + Digits(m);
    LeadingZeros(z, Digits(m));
    NumberOfDigits(m, []);
    assert Digits(m) + [] == Digits(m);
    FirstIsDigit(z, m);
    assert forall i :: 0 <= i < |number| ==> IsDigit(number[i]);
    if n >= 0 { assert Code(n) == number; } else { assert Code(n)[1..] == number; }
  }

  /** The daemon answers a command with its code, with any number of bytes a write, and the text
      is in the reply buffer of a client that reads it at once. */
  method TellResult(errcode: int, sending: nat -> nat, receiving: nat -> nat, retbuffer: array<byte>)
    returns (r: Received)
    requires -999 <= errcode <= 9999 && Flows(sending)
    requires retbuffer.Length > |ReplyText(errcode)| && AtOnce(receiving, |ReplyText(errcode)| + 1)
    modifies retbuffer
    ensures r == Text && retbuffer[..|ReplyText(errcode)| + 1] == ReplyText(errcode) + [0]
  {
    hide GenericText;
    GenericTextIsSpelled(errcode);
    var socket := new Writer(sending);
    var _ := ReplyGenericMsg(socket, errcode);
    var wire := socket.sent;
    assert wire == ReplyText(errcode) + [0] && wire[..4][0] != 68;
    var reader := new Reader(receiving, wire);
    r := ReceiveReply(reader, retbuffer, [], []);
  }
}
