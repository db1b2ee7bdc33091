/** Requests on the control socket: a command and data, each ended by a zero byte. One read
    event reads into a buffer of 1024 bytes, parses its front once, hands the buffer to the
    listeners and drops what was parsed.
  */
module Framing {
  import opened Sockets

  const MAXTRANSPORTDATA: nat := 1024
  const CMDLEN: nat := 4

  const SH_CMDERR_INVALIDCMD: nat := 1
  const SH_CMDERR_GARBAGECMD: nat := 2
  const SH_CMDERR_DATATOOLON: nat := 3
  const SH_WRN_KEEPREADNMORE: nat := 172

  // ---- requests -------------------------------------------------------------------

  datatype Frame = Frame(cmd: seq<byte>, data: seq<byte>)

  // The layout of sc_sendrecv for a command with data.
  function Bytes(f: Frame): seq<byte> { f.cmd + [0] + f.data + [0] }

  predicate Proper(f: Frame) { |f.cmd| <= 4 && ZeroFree(f.cmd) && ZeroFree(f.data) }

  function Wire(fs: seq<Frame>): seq<byte> { if fs == [] then [] else Bytes(fs[0]) + Wire(fs[1..]) }

  // socket_cmdparsedata; the pointers are given by the lengths.
  datatype Parsed = Parsed(errcode: nat, cmdlen: nat, datalen: nat)

  // What parsing drops from the buffer.
  datatype Drop = DropNothing | DropBytes(count: nat)

  /** sh_try_cmdparsing over the whole buffer, of which the first n bytes were read. */
  function Parse(buffer: seq<byte>, n: nat): (Parsed, Drop)
    requires |buffer| == MAXTRANSPORTDATA && n <= MAXTRANSPORTDATA
  {
    var cmdlen := FirstZero(buffer[0..n]);
    if n == 0 then (Parsed(SH_WRN_KEEPREADNMORE, 0, 0), DropNothing)
    else if cmdlen == n then
      if n == MAXTRANSPORTDATA then (Parsed(SH_CMDERR_GARBAGECMD, 0, 0), DropBytes(MAXTRANSPORTDATA))
      else (Parsed(0, 0, 0), DropNothing)
    else if cmdlen > CMDLEN then (Parsed(SH_CMDERR_INVALIDCMD, cmdlen, 0), DropBytes(cmdlen + 2))
    else
      var datalen := FirstZero(buffer[cmdlen + 1..MAXTRANSPORTDATA]);
      if datalen < MAXTRANSPORTDATA - cmdlen - 1 then (Parsed(0, cmdlen, datalen), DropNothing)
      else if n == MAXTRANSPORTDATA then
        (Parsed(SH_CMDERR_DATATOOLON, cmdlen, 0), DropBytes(MAXTRANSPORTDATA))
      else (Parsed(SH_WRN_KEEPREADNMORE, cmdlen, 0), DropNothing)
  }

  // The buffer after shc_dropbytes: bytes move left; what they leave behind is
  // cleared from `count` on only.
  function Shifted(buffer: seq<byte>, n: nat, count: nat): (r: seq<byte>)
    requires |buffer| == MAXTRANSPORTDATA && n <= MAXTRANSPORTDATA && 0 < count
    ensures |r| == MAXTRANSPORTDATA
  {
    if count >= n then seq(MAXTRANSPORTDATA, _ => 0)
    else
      seq(MAXTRANSPORTDATA, i requires 0 <= i < MAXTRANSPORTDATA =>
        if i < MAXTRANSPORTDATA - count then buffer[i + count] else if i < count then buffer[i] else 0)
  }

  lemma WaitingDropsNothing(buffer: seq<byte>, n: nat)
    requires |buffer| == MAXTRANSPORTDATA && n <= MAXTRANSPORTDATA
    ensures Parse(buffer, n).0.errcode == SH_WRN_KEEPREADNMORE ==> Parse(buffer, n).1 == DropNothing
  {
  }

  // How shc_dropbytes gets there.
  lemma ShiftedParts(buffer: seq<byte>, n: nat, count: nat)
    requires |buffer| == MAXTRANSPORTDATA && 0 < count < n <= MAXTRANSPORTDATA
    ensures var cleared := buffer[..count] + seq(MAXTRANSPORTDATA - count, _ => 0);
      Shifted(buffer, n, count) == buffer[count..] + cleared[MAXTRANSPORTDATA - count..]
  {
  }

  function Left(n: nat, count: nat): nat { if count >= n then 0 else n - count }

  // ---- parsing complete requests ----------------------------------------------------

  // The message a handler reads out of the buffer after parsing.
  function Message(buffer: seq<byte>, p: Parsed): Frame
    requires p.cmdlen + p.datalen + 1 <= |buffer|
  {
    Frame(buffer[..p.cmdlen], buffer[p.cmdlen + 1..p.cmdlen + 1 + p.datalen])
  }

  /** A buffer that starts with a complete request is parsed into exactly that request,
      and dropping it leaves exactly the bytes behind it, whatever the unused part of
      the buffer holds. */
  lemma CompleteRequest(buffer: seq<byte>, n: nat, f: Frame, rest: seq<byte>)
    requires |buffer| == MAXTRANSPORTDATA && n <= MAXTRANSPORTDATA
    requires Proper(f) && buffer[..n] == Bytes(f) + rest
    ensures Parse(buffer, n) == (Parsed(0, |f.cmd|, |f.data|), DropNothing)
    ensures Message(buffer, Parsed(0, |f.cmd|, |f.data|)) == f
    ensures var count := |f.cmd| + |f.data| + 2;
      Left(n, count) == |rest| && Shifted(buffer, n, count)[..|rest|] == rest
  {
    CompleteParts(buffer, n, f, rest);
    ShiftLeavesRest(buffer, n, |Bytes(f)|);
  }

  lemma CompleteParts(buffer: seq<byte>, n: nat, f: Frame, rest: seq<byte>)
    requires |buffer| == MAXTRANSPORTDATA && n <= MAXTRANSPORTDATA
    requires Proper(f) && buffer[..n] == Bytes(f) + rest
    ensures FirstZero(buffer[0..n]) == |f.cmd| < n
    ensures FirstZero(buffer[|f.cmd| + 1..MAXTRANSPORTDATA]) == |f.data|
    ensures |f.cmd| + |f.data| + 2 + |rest| == n && buffer[|Bytes(f)|..n] == rest
    ensures Message(buffer, Parsed(0, |f.cmd|, |f.data|)) == f
  {
    hide FirstZero;
    var whole := Bytes(f) + rest + buffer[n..];
    assert buffer == whole by { assert buffer == buffer[..n] + buffer[n..]; }
    assert buffer[0..n] == f.cmd + [0] + (f.data + [0] + rest);
    FirstZeroOf(f.cmd, f.data + [0] + rest);
    assert whole == (f.cmd + [0]) + (f.data + [0] + (rest + buffer[n..]));
    assert buffer[|f.cmd| + 1..MAXTRANSPORTDATA] == f.data + [0] + (rest + buffer[n..]);
    FirstZeroOf(f.data, rest + buffer[n..]);
  }

  lemma ShiftLeavesRest(buffer: seq<byte>, n: nat, count: nat)
    requires |buffer| == MAXTRANSPORTDATA && 0 < count <= n <= MAXTRANSPORTDATA
    ensures Shifted(buffer, n, count)[..n - count] == buffer[count..n]
  {
  }

  /** A request of which only the first n bytes have arrived is waited for exactly when
      its command is complete and the unused part of the buffer holds no zero byte. */
  lemma WaitsExactly(buffer: seq<byte>, n: nat, f: Frame)
    requires |buffer| == MAXTRANSPORTDATA && 0 < n < MAXTRANSPORTDATA
    requires Proper(f) && n < |Bytes(f)| && buffer[..n] == Bytes(f)[..n]
    ensures Parse(buffer, n).0.errcode == 172 <==> n > |f.cmd| && 0 !in buffer[n..]
  {
    assert buffer[0..n] == Bytes(f)[..n];
    if n <= |f.cmd| {
      assert Bytes(f)[..n] == f.cmd[..n];
    } else {
      var part := f.data[..n - |f.cmd| - 1];
      assert Bytes(f)[..n] == f.cmd + [0] + part;
      FirstZeroOf(f.cmd, part);
      var tail := buffer[|f.cmd| + 1..MAXTRANSPORTDATA];
      assert tail == part + buffer[n..] by { assert buffer == buffer[..n] + buffer[n..]; }
      assert 0 in tail <==> 0 in buffer[n..];
      assert FirstZero(tail) == |tail| <==> 0 !in tail;
    }
  }

  // The messages of parsing and dropping k times, and how many bytes are left.
  ghost function ParseAndDrop(buffer: seq<byte>, n: nat, k: nat): (seq<Frame>, nat)
    requires |buffer| == MAXTRANSPORTDATA && n <= MAXTRANSPORTDATA
    decreases k
  {
    var p := Parse(buffer, n).0;
    if k == 0 || p.errcode != 0 || p.cmdlen + p.datalen + 1 > MAXTRANSPORTDATA then ([], n)
    else
      var count := p.cmdlen + p.datalen + 2;
      var (later, left) := ParseAndDrop(Shifted(buffer, n, count), Left(n, count), k - 1);
      ([Message(buffer, p)] + later, left)
  }

  /** Repeated parsing and dropping takes a buffer of complete requests apart into exactly
      these requests and empties it. */
  lemma {:induction false} ParseAndDropAll(buffer: seq<byte>, n: nat, fs: seq<Frame>)
    requires |buffer| == MAXTRANSPORTDATA && n <= MAXTRANSPORTDATA && buffer[..n] == Wire(fs)
    requires forall i :: 0 <= i < |fs| ==> Proper(fs[i])
    ensures ParseAndDrop(buffer, n, |fs|) == (fs, 0)
    decreases |fs|
  {
    if fs == [] {
      assert |fs| == 0;
    } else {
      hide Parse, Shifted, Message, Left, Bytes, Proper, ParseAndDrop;
      var (f, k) := (fs[0], |fs| - 1);
      CompleteRequest(buffer, n, f, Wire(fs[1..]));
      var count := |f.cmd| + |f.data| + 2;
      var (left, m) := (Shifted(buffer, n, count), Left(n, count));
      assert left[..m] == Wire(fs[1..]);
      ParseAndDropAll(left, m, fs[1..]);
      ParseAndDropOnce(buffer, n, k, f, left, m);
      assert fs == [f] + fs[1..];
    }
  }

  lemma ParseAndDropOnce(buffer: seq<byte>, n: nat, k: nat, f: Frame, left: seq<byte>, m: nat)
    requires |buffer| == MAXTRANSPORTDATA && n <= MAXTRANSPORTDATA && |f.cmd| + |f.data| + 1 <= MAXTRANSPORTDATA
    requires Parse(buffer, n).0 == Parsed(0, |f.cmd|, |f.data|) && Message(buffer, Parse(buffer, n).0) == f
    requires var count := |f.cmd| + |f.data| + 2; left == Shifted(buffer, n, count) && m == Left(n, count) <= n
    ensures ParseAndDrop(buffer, n, k + 1) == ([f] + ParseAndDrop(left, m, k).0, ParseAndDrop(left, m, k).1)
  {
    hide Parse, Shifted, Message, Left;
  }

  // The command, if the n bytes that were read hold its zero byte.
  ghost predicate CommandEnds(buffer: seq<byte>, n: nat, c: nat) {
    c < n <= |buffer| && buffer[c] == 0 && forall k :: 0 <= k < c ==> buffer[k] != 0
  }

  /** The error code of every buffer: 1 for a command of more than four bytes, 2 for a full buffer
      without a zero byte, 3 for one without a zero byte behind its command, 172 when nothing was
      read or the data of a command has no end yet, and 0 otherwise; the codes 2 and 3 empty the
      buffer, code 1 drops the command and two bytes. */
  lemma ErrorsExactly(buffer: seq<byte>, n: nat)
    requires |buffer| == 1024 && n <= 1024
    ensures var (p, drop) := Parse(buffer, n);
      (p.errcode == 1 <==> exists c: nat :: CommandEnds(buffer, n, c) && c > 4) &&
      (p.errcode == 2 <==> n == 1024 && 0 !in buffer) &&
      (p.errcode == 3 <==>
        n == 1024 && exists c: nat :: CommandEnds(buffer, n, c) && c <= 4 && 0 !in buffer[c + 1..]) &&
      (p.errcode == 172 <==>
        n == 0 || (n < 1024 && exists c: nat :: CommandEnds(buffer, n, c) && c <= 4 && 0 !in buffer[c + 1..])) &&
      p.errcode in {0, 1, 2, 3, 172} &&
      (drop == if p.errcode == 1 then DropBytes(p.cmdlen + 2)
               else if p.errcode == 2 || p.errcode == 3 then DropBytes(1024) else DropNothing)
  {
    var c := FirstZero(buffer[0..n]);
    assert buffer[0..n] == buffer[..n];
    assert c == n <==> 0 !in buffer[..n];
    if c < n {
      assert CommandEnds(buffer, n, c);
      assert forall k: nat :: CommandEnds(buffer, n, k) ==> k == c;
      assert buffer[c + 1..1024] == buffer[c + 1..];
      assert FirstZero(buffer[c + 1..]) == |buffer[c + 1..]| <==> 0 !in buffer[c + 1..];
      assert 0 in buffer;
    } else {
      assert forall k: nat :: !CommandEnds(buffer, n, k);
      assert n == 1024 ==> buffer[..n] == buffer;
    }
  }

  /** Dropping bytes from a buffer that is clear behind what was read leaves it clear behind what is
      left, exactly when everything is dropped or the bytes from 1024 - count to count are clear:
      these stay where they were. */
  lemma DropLeavesClearExactly(buffer: seq<byte>, n: nat, count: nat)
    requires |buffer| == 1024 && n <= 1024 && 0 < count && forall i :: n <= i < 1024 ==> buffer[i] == 0
    ensures (forall i :: Left(n, count) <= i < 1024 ==> Shifted(buffer, n, count)[i] == 0) <==>
      count >= n || forall i :: 1024 - count <= i < count ==> buffer[i] == 0
  {
    var r := Shifted(buffer, n, count);
    if count < n {
      assert forall i :: n - count <= i < 1024 - count ==> r[i] == buffer[i + count] == 0;
      forall i | 1024 - count <= i < count ensures r[i] == buffer[i] && Left(n, count) <= i {
      }
    }
  }

  // ---- how much one read event takes -----------------------------------------------------

  const SIZE_MODULUS: nat := 0x1_0000_0000_0000_0000

  // Reads of these sizes add up to exactly `left`.
  ghost predicate AddUp(chunk: nat -> nat, call: nat, left: nat)
    requires Flows(chunk)
    decreases left
  {
    left == 0 || (chunk(call) <= left && AddUp(chunk, call + 1, left - chunk(call)))
  }

  // The first read brings all bytes that were announced, or the reads add up to them.
  ghost predicate StopsThere(chunk: nat -> nat, call: nat, announced: nat)
    requires Flows(chunk)
  {
    chunk(call) >= announced || AddUp(chunk, call, announced)
  }

  // How many bytes a read event takes out of a stream when the buffer has `room`.
  ghost function Taken(chunk: nat -> nat, call: nat, stream: nat, room: nat, announced: nat): nat
    requires Flows(chunk)
  {
    Min(stream, if StopsThere(chunk, call, announced) then Min(room, announced) else room)
  }

  /** For one schedule: a read event takes no more than was announced exactly when the
      stream or the room hold no more, or the first read brings all of it, or the reads
      add up to it. */
  lemma TakesNoMoreExactly(chunk: nat -> nat, call: nat, stream: nat, room: nat, announced: nat)
    requires Flows(chunk)
    ensures Taken(chunk, call, stream, room, announced) <= announced <==>
      stream <= announced || room <= announced || StopsThere(chunk, call, announced)
  {
  }

  /** For all schedules: no read event takes more than was announced exactly when the
      stream or the room hold no more or at most one byte was announced. */
  lemma NeverTakesMoreExactly(call: nat, stream: nat, room: nat, announced: nat)
    ensures (forall chunk: nat -> nat :: Flows(chunk) ==> Taken(chunk, call, stream, room, announced) <= announced)
      <==> stream <= announced || room <= announced || announced <= 1
  {
    if 1 < announced < stream && announced < room {
      ShortReadTakesAll(call, stream, room, announced);
    }
  }

  // A stream that is announced and fits is taken.
  lemma WholeStreamTaken(chunk: nat -> nat, call: nat, stream: nat, room: nat)
    requires Flows(chunk) && stream <= room
    ensures Taken(chunk, call, stream, room, stream) == stream
  {
  }

  // One byte first, then as many as were announced.
  ghost function ShortFirst(call: nat, announced: nat): nat -> nat {
    (n: nat) => if n == call || announced == 0 then 1 else announced
  }

  /** A first read of one byte makes the loop read on until the buffer is full or the
      stream is empty: with 10 bytes announced, 100 of them in the stream and an empty
      buffer it takes all 100. */
  lemma ShortReadTakesAll(call: nat, stream: nat, room: nat, announced: nat)
    requires 1 < announced < stream && announced < room
    ensures Flows(ShortFirst(call, announced))
    ensures Taken(ShortFirst(call, announced), call, stream, room, announced) == Min(stream, room) > announced
    ensures Taken(ShortFirst(0, 10), 0, 100, 1024, 10) == 100
  {
    var chunk := ShortFirst(call, announced);
    assert chunk(call) == 1 && chunk(call + 1) == announced;
    assert !AddUp(chunk, call + 1, announced - 1);
    var ten := ShortFirst(0, 10);
    assert ten(0) == 1 && ten(1) == 10;
    assert !AddUp(ten, 1, 9);
  }

  // State of the loop of sh_read_data when the stream and the room go beyond what was
  // announced: it still decides whether the reads add up, or they did not.
  ghost predicate OnTrack(chunk: nat -> nat, first: nat, call: nat, announced: nat, got: nat, toRead: int, room: nat)
    requires Flows(chunk)
  {
    if got == 0 then call == first && toRead == announced
    else if got > announced then !StopsThere(chunk, first, announced)
    else
      (StopsThere(chunk, first, announced) <==> AddUp(chunk, call, announced - got)) &&
      (got < announced ==> toRead > announced - got)
  }

  function Unsigned(n: int): nat
    requires n + SIZE_MODULUS >= 0
  {
    if n >= 0 then n else n + SIZE_MODULUS
  }

  // `bytes` written into the buffer behind the first n.
  function Placed(buffer: seq<byte>, n: nat, bytes: seq<byte>): (r: seq<byte>)
    requires n + |bytes| <= |buffer|
    ensures |r| == |buffer| && r[..n] == buffer[..n] && r[..n + |bytes|] == buffer[..n] + bytes
  {
    buffer[..n] + bytes + buffer[n + |bytes|..]
  }

  // Two writes behind each other are one.
  lemma PlacedTwice(buffer: seq<byte>, n: nat, some: seq<byte>, more: seq<byte>)
    requires n + |some| + |more| <= |buffer|
    ensures Placed(Placed(buffer, n, some), n + |some|, more) == Placed(buffer, n, some + more)
  {
  }

  // What the variables of the loop of sh_read_data hold after `got` of `stream` bytes.
  datatype Loop = Loop(chunk: nat -> nat, first: nat, announced: nat, room: nat, stream: nat)

  ghost predicate Counts(x: Loop, call: nat, got: nat, ready: int, remaining: int, toRead: int) {
    x.announced < SIZE_MODULUS && x.room <= MAXTRANSPORTDATA && got <= x.stream && got <= x.room &&
    remaining == x.room - got && ready == Unsigned(x.announced - got) && 0 <= toRead <= remaining &&
    (remaining > 0 && ready > 0 ==> toRead > 0) &&
    (Flows(x.chunk) && x.announced < x.room && x.announced < x.stream ==>
      OnTrack(x.chunk, x.first, call, x.announced, got, toRead, x.room))
  }

  lemma CountsStart(x: Loop)
    requires x.announced < SIZE_MODULUS && x.room <= MAXTRANSPORTDATA
    ensures Counts(x, x.first, 0, x.announced, x.room, Min(x.announced, x.room))
  {
  }

  // One read of d bytes; the number to read next comes from `ready` before it.
  lemma CountsAdvance(x: Loop, call: nat, got: nat, ready: nat, remaining: nat, toRead: nat, d: nat)
    requires Counts(x, call, got, ready, remaining, toRead) && ready > 0
    requires 0 < d == Min(x.chunk(call), Min(toRead, x.stream - got))
    ensures d <= remaining && ready - d + SIZE_MODULUS >= 0
    ensures Counts(x, call + 1, got + d, Unsigned(ready - d), remaining - d, Min(ready, remaining - d))
  {
  }

  // The loop ends with the buffer full, nothing announced left or the stream empty.
  lemma CountsEnd(x: Loop, call: nat, got: nat, ready: nat, remaining: nat, toRead: nat)
    requires Counts(x, call, got, ready, remaining, toRead) && Flows(x.chunk)
    requires remaining == 0 || ready == 0 || got == x.stream
    ensures got == Taken(x.chunk, x.first, x.stream, x.room, x.announced)
  {
  }

  // ---- one read event -------------------------------------------------------------------

  // What a read event leads to: listeners get the command up to its zero byte, a pointer to
  // the byte behind it (given by the bytes of the buffer from there on) and a length.
  datatype Outcome = Waits | Handed(errcode: nat, cmd: seq<byte>, data: seq<byte>, len: nat)

  // Outcome of a read event, and the buffer and its number of bytes behind it.
  datatype Event = Event(outcome: Outcome, buffer: seq<byte>, n: nat)

  // The listeners are given what the client sent.
  predicate Gives(o: Outcome, f: Frame) {
    o.Handed? && o.errcode == 0 && o.cmd == f.cmd && o.len <= |o.data| && o.data[..o.len] == f.data + [0]
  }

  // The listeners are given the command and data that start with what the client sent.
  predicate Begins(o: Outcome, f: Frame) {
    o.Handed? && o.errcode == 0 && o.cmd == f.cmd && |f.data| < o.len <= |o.data| && f.data + [0] <= o.data
  }

  // The arguments of the listeners; the length is a size_t.
  function HandOut(errcode: nat, buffer: seq<byte>, n: nat): Outcome
    requires |buffer| == MAXTRANSPORTDATA
  {
    var cmdlen := FirstZero(buffer);
    Handed(errcode, buffer[..cmdlen], buffer[Min(cmdlen + 1, MAXTRANSPORTDATA)..], Unsigned(n - cmdlen - 1))
  }

  function Dropped(buffer: seq<byte>, n: nat, drop: Drop): (seq<byte>, nat)
    requires |buffer| == MAXTRANSPORTDATA && n <= MAXTRANSPORTDATA && (drop.DropBytes? ==> drop.count > 0)
  {
    match drop
    case DropNothing => (buffer, n)
    case DropBytes(count) => (Shifted(buffer, n, count), Left(n, count))
  }

  // The read branch of sh_accept_handler_thread behind sh_read_data. A request with an
  // error is answered, handed out as what is left, and dropped a second time.
  function Handle(buffer: seq<byte>, n: nat): (e: Event)
    requires |buffer| == MAXTRANSPORTDATA && n <= MAXTRANSPORTDATA
    ensures |e.buffer| == MAXTRANSPORTDATA && e.n <= MAXTRANSPORTDATA
  {
    var (parsed, drop) := Parse(buffer, n);
    if parsed.errcode == SH_WRN_KEEPREADNMORE then Event(Waits, buffer, n)
    else
      var (left, m) := Dropped(buffer, n, drop);
      var count := parsed.cmdlen + parsed.datalen + 2;
      Event(HandOut(parsed.errcode, left, m), Shifted(left, m, count), Left(m, count))
  }

  // A read event that brings `bytes`.
  function Arrive(buffer: seq<byte>, n: nat, bytes: seq<byte>): (e: Event)
    requires |buffer| == MAXTRANSPORTDATA && n + |bytes| <= MAXTRANSPORTDATA
    ensures |e.buffer| == MAXTRANSPORTDATA && e.n <= MAXTRANSPORTDATA
  {
    Handle(Placed(buffer, n, bytes), n + |bytes|)
  }

  /** With a complete request at the front the listeners get its command, its data and
      every byte that was read behind it; so they get the request as it was sent exactly
      when nothing was read behind it. What is behind it stays for the next read event. */
  lemma HandsOutAllBehind(buffer: seq<byte>, n: nat, f: Frame, rest: seq<byte>)
    requires |buffer| == MAXTRANSPORTDATA && n <= MAXTRANSPORTDATA
    requires Proper(f) && buffer[..n] == Bytes(f) + rest
    ensures var e := Handle(buffer, n);
      e.outcome.Handed? && e.outcome.errcode == 0 && e.outcome.cmd == f.cmd &&
      e.outcome.len == |f.data + [0] + rest| <= |e.outcome.data| &&
      e.outcome.data[..e.outcome.len] == f.data + [0] + rest &&
      e.n == |rest| && e.buffer[..e.n] == rest
    ensures Begins(Handle(buffer, n).outcome, f) && (Gives(Handle(buffer, n).outcome, f) <==> rest == [])
  {
    hide Parse, Shifted;
    CompleteRequest(buffer, n, f, rest);
    assert buffer == f.cmd + [0] + (f.data + [0] + rest + buffer[n..]) by {
      assert buffer == buffer[..n] + buffer[n..];
    }
    FirstZeroOf(f.cmd, f.data + [0] + rest + buffer[n..]);
  }

  /** In a buffer that is clear behind what was read no request is ever waited for: one
      that is cut in its data is handed out as far as it has come, one that is cut in its
      command with a length of 2^64 - 1. */
  lemma CutIsHandedOut(buffer: seq<byte>, n: nat, f: Frame)
    requires |buffer| == MAXTRANSPORTDATA && 0 < n < |Bytes(f)| <= MAXTRANSPORTDATA
    requires Proper(f) && buffer[..n] == Bytes(f)[..n] && forall i :: n <= i < MAXTRANSPORTDATA ==> buffer[i] == 0
    ensures var o := Handle(buffer, n).outcome;
      o.Handed? && o.errcode == 0 && !Gives(o, f) &&
      if n <= |f.cmd| then o.cmd == f.cmd[..n] && o.len == 0xFFFF_FFFF_FFFF_FFFF
      else o.cmd == f.cmd && o.len == n - |f.cmd| - 1 <= |o.data| && o.data[..o.len] == f.data[..o.len]
  {
    if n <= |f.cmd| { CutInCommand(buffer, n, f); } else { CutInData(buffer, n, f); }
  }

  lemma CutInCommand(buffer: seq<byte>, n: nat, f: Frame)
    requires |buffer| == MAXTRANSPORTDATA && 0 < n <= |f.cmd| && |Bytes(f)| <= MAXTRANSPORTDATA
    requires Proper(f) && buffer[..n] == Bytes(f)[..n] && buffer[n] == 0
    ensures var o := Handle(buffer, n).outcome;
      o.Handed? && o.errcode == 0 && o.cmd == f.cmd[..n] != f.cmd + [0] && o.len == 0xFFFF_FFFF_FFFF_FFFF
  {
    hide Shifted, FirstZero;
    var cmd := f.cmd[..n];
    assert buffer[..n] == cmd && buffer[0..n] == cmd + [] by { assert Bytes(f)[..n] == cmd; }
    assert buffer == cmd + [0] + buffer[n + 1..];
    FirstZeroOf(cmd, buffer[n + 1..]);
    assert FirstZero(buffer[0..n]) == n;
  }

  lemma CutInData(buffer: seq<byte>, n: nat, f: Frame)
    requires |buffer| == MAXTRANSPORTDATA && |f.cmd| < n < |Bytes(f)| <= MAXTRANSPORTDATA
    requires Proper(f) && buffer[..n] == Bytes(f)[..n] && buffer[n] == 0
    ensures var o := Handle(buffer, n).outcome;
      o.Handed? && o.errcode == 0 && o.cmd == f.cmd && o.len == n - |f.cmd| - 1 <= |o.data| &&
      o.data[..o.len] == f.data[..o.len]
  {
    hide Shifted, FirstZero;
    var (cmd, part) := (f.cmd, f.data[..n - |f.cmd| - 1]);
    assert buffer[0..n] == cmd + [0] + part by { assert Bytes(f)[..n] == cmd + [0] + part; }
    FirstZeroOf(cmd, part);
    assert buffer == cmd + [0] + (part + buffer[n..]) by { assert buffer == buffer[..n] + buffer[n..]; }
    FirstZeroOf(cmd, part + buffer[n..]);
    var tail := buffer[|cmd| + 1..MAXTRANSPORTDATA];
    assert tail == part + [0] + buffer[n + 1..];
    FirstZeroOf(part, buffer[n + 1..]);
  }

  // ---- a stream of requests ---------------------------------------------------------------

  // Outcomes of read events that bring these bytes one after the other.
  ghost function Outcomes(buffer: seq<byte>, n: nat, arrivals: seq<seq<byte>>): (os: seq<Outcome>)
    requires |buffer| == MAXTRANSPORTDATA
    ensures |os| <= |arrivals|
    decreases |arrivals|
  {
    if arrivals == [] || n + |arrivals[0]| > MAXTRANSPORTDATA then []
    else
      var e := Arrive(buffer, n, arrivals[0]);
      [e.outcome] + Outcomes(e.buffer, e.n, arrivals[1..])
  }

  // Every read event fits the buffer and completes the next request.
  ghost predicate EachCompletes(n: nat, fs: seq<Frame>, arrivals: seq<seq<byte>>)
    decreases |fs|
  {
    |fs| == |arrivals| &&
    (fs == [] ||
      (|Bytes(fs[0])| <= n + |arrivals[0]| <= MAXTRANSPORTDATA &&
       EachCompletes(n + |arrivals[0]| - |Bytes(fs[0])|, fs[1..], arrivals[1..])))
  }

  // Every read event brings the next request to its end and nothing more.
  ghost predicate OneEach(n: nat, fs: seq<Frame>, arrivals: seq<seq<byte>>)
    requires |fs| == |arrivals|
    decreases |fs|
  {
    fs == [] ||
    (n + |arrivals[0]| == |Bytes(fs[0])| && OneEach(0, fs[1..], arrivals[1..]))
  }

  // What was read ends behind the first request.
  lemma SplitStream(front: seq<byte>, back: seq<byte>, first: seq<byte>, others: seq<byte>)
    requires front + back == first + others && |first| <= |front|
    ensures front == first + front[|first|..] && front[|first|..] + back == others
  {
    assert front == (front + back)[..|front|] == (first + others)[..|front|];
    assert (front + back)[|first|..] == front[|first|..] + back;
  }

  ghost predicate AllBegin(os: seq<Outcome>, fs: seq<Frame>) {
    |os| == |fs| && forall i {:trigger Begins(os[i], fs[i])} :: 0 <= i < |os| ==> Begins(os[i], fs[i])
  }

  ghost predicate AllGive(os: seq<Outcome>, fs: seq<Frame>) {
    |os| == |fs| && forall i {:trigger Gives(os[i], fs[i])} :: 0 <= i < |os| ==> Gives(os[i], fs[i])
  }

  lemma BeginFirstAndLater(all: seq<Outcome>, sent: seq<Frame>)
    requires |all| == |sent| > 0
    ensures AllBegin(all, sent) <==> Begins(all[0], sent[0]) && AllBegin(all[1..], sent[1..])
  {
    hide Begins;
    var (os, fs) := (all[1..], sent[1..]);
    if AllBegin(all, sent) {
      forall i | 0 <= i < |os| ensures Begins(os[i], fs[i]) { assert Begins(all[i + 1], sent[i + 1]); }
    }
    if Begins(all[0], sent[0]) && AllBegin(os, fs) {
      forall i | 0 <= i < |all| ensures Begins(all[i], sent[i]) {
        if i > 0 { assert Begins(os[i - 1], fs[i - 1]); }
      }
    }
  }

  lemma GiveFirstAndLater(all: seq<Outcome>, sent: seq<Frame>)
    requires |all| == |sent| > 0
    ensures AllGive(all, sent) <==> Gives(all[0], sent[0]) && AllGive(all[1..], sent[1..])
  {
    hide Gives;
    var (os, fs) := (all[1..], sent[1..]);
    if AllGive(all, sent) {
      forall i | 0 <= i < |os| ensures Gives(os[i], fs[i]) { assert Gives(all[i + 1], sent[i + 1]); }
    }
    if Gives(all[0], sent[0]) && AllGive(os, fs) {
      forall i | 0 <= i < |all| ensures Gives(all[i], sent[i]) {
        if i > 0 { assert Gives(os[i - 1], fs[i - 1]); }
      }
    }
  }

  /** Requests that each read event completes are handed out in the order they were sent,
      each with its command and with data that starts with its own. All of them are handed
      out as they were sent exactly when every read event brings exactly one request. */
  lemma {:induction false} RequestsInOrder(buffer: seq<byte>, n: nat, fs: seq<Frame>, arrivals: seq<seq<byte>>)
    requires |buffer| == MAXTRANSPORTDATA && n <= MAXTRANSPORTDATA && EachCompletes(n, fs, arrivals)
    requires buffer[..n] + Concat(arrivals) == Wire(fs)
    requires forall i :: 0 <= i < |fs| ==> Proper(fs[i])
    ensures |Outcomes(buffer, n, arrivals)| == |fs| && AllBegin(Outcomes(buffer, n, arrivals), fs)
    ensures AllGive(Outcomes(buffer, n, arrivals), fs) <==> OneEach(n, fs, arrivals)
    decreases |fs|
  {
    if fs != [] {
      hide Handle, Placed, Gives, Begins, Bytes, AllBegin, AllGive, Proper, Concat, Wire, EachCompletes, Arrive;
      var e := Arrive(buffer, n, arrivals[0]);
      NextRequest(buffer, n, fs, arrivals);
      RequestsInOrder(e.buffer, e.n, fs[1..], arrivals[1..]);
      var os := Outcomes(buffer, n, arrivals);
      assert os[0] == e.outcome && os[1..] == Outcomes(e.buffer, e.n, arrivals[1..]);
      assert |os| == |fs| by { assert |os[1..]| == |fs[1..]|; }
      BeginFirstAndLater(os, fs);
      GiveFirstAndLater(os, fs);
    }
  }

  // One read event of such a stream.
  lemma NextRequest(buffer: seq<byte>, n: nat, fs: seq<Frame>, arrivals: seq<seq<byte>>)
    requires |buffer| == MAXTRANSPORTDATA && n <= MAXTRANSPORTDATA && EachCompletes(n, fs, arrivals) && fs != []
    requires buffer[..n] + Concat(arrivals) == Wire(fs) && Proper(fs[0])
    ensures |arrivals| == |fs| && |Bytes(fs[0])| <= n + |arrivals[0]| <= MAXTRANSPORTDATA
    ensures var e := Arrive(buffer, n, arrivals[0]);
      e.n == n + |arrivals[0]| - |Bytes(fs[0])| && EachCompletes(e.n, fs[1..], arrivals[1..]) &&
      e.buffer[..e.n] + Concat(arrivals[1..]) == Wire(fs[1..]) && Begins(e.outcome, fs[0]) &&
      (Gives(e.outcome, fs[0]) <==> e.n == 0)
  {
    hide Handle, Placed, Gives, Begins, Bytes, Proper, Wire, Concat, EachCompletes;
    FirstOfStream(buffer[..n], n, fs, arrivals);
    var (f, a) := (fs[0], arrivals[0]);
    var rest := (buffer[..n] + a)[|Bytes(f)|..];
    HandsOutAllBehind(Placed(buffer, n, a), n + |a|, f, rest);
  }

  // The first request of a stream and what is read behind it.
  lemma FirstOfStream(pending: seq<byte>, n: nat, fs: seq<Frame>, arrivals: seq<seq<byte>>)
    requires EachCompletes(n, fs, arrivals) && fs != [] && |pending| == n
    requires pending + Concat(arrivals) == Wire(fs)
    ensures |arrivals| == |fs| && |Bytes(fs[0])| <= n + |arrivals[0]| <= MAXTRANSPORTDATA
    ensures EachCompletes(n + |arrivals[0]| - |Bytes(fs[0])|, fs[1..], arrivals[1..])
    ensures var (read, rest) := (pending + arrivals[0], (pending + arrivals[0])[|Bytes(fs[0])|..]);
      read == Bytes(fs[0]) + rest && rest + Concat(arrivals[1..]) == Wire(fs[1..])
  {
    hide Bytes;
    var a := arrivals[0];
    assert pending + Concat(arrivals) == (pending + a) + Concat(arrivals[1..]);
    SplitStream(pending + a, Concat(arrivals[1..]), Bytes(fs[0]), Wire(fs[1..]));
  }

  // ---- one connection -----------------------------------------------------------------

  class Connection {
    const buffer: array<byte>
    var bytesRead: nat

    ghost predicate Valid()
      reads this
    {
      buffer.Length == MAXTRANSPORTDATA && bytesRead <= MAXTRANSPORTDATA
    }

    // What was read and not yet dropped.
    ghost function Pending(): seq<byte>
      requires Valid()
      reads this, buffer
    {
      buffer[..bytesRead]
    }

    // shc_new
    constructor ()
      ensures Valid() && fresh(buffer) && Pending() == [] && buffer[..] == seq(MAXTRANSPORTDATA, _ => 0)
    {
      buffer := new byte[MAXTRANSPORTDATA](_ => 0);
      bytesRead := 0;
    }

    // sh_read_data, told that `bytesReady` bytes can be read. The number to read next is
    // computed before `ready` is reduced, and `ready` wraps like a size_t.
    method ReadData(socket: Reader, bytesReady: nat) returns (ghost got: nat)
      requires Valid() && bytesReady < SIZE_MODULUS
      modifies this`bytesRead, buffer, socket
      ensures Valid() && Received(socket, old(buffer[..]), old(bytesRead), old(socket.ready), got)
      ensures Flows(socket.chunk) ==>
        got == Taken(socket.chunk, old(socket.calls), |old(socket.ready)|,
                     MAXTRANSPORTDATA - old(bytesRead), bytesReady)
    {
      hide Counts, Received, Taken;
      ghost var (was, at, stream) := (buffer[..], bytesRead, socket.ready);
      ghost var x := Loop(socket.chunk, socket.calls, bytesReady, MAXTRANSPORTDATA - bytesRead, |stream|);
      var remaining := MAXTRANSPORTDATA - bytesRead;
      var ready: int := bytesReady;
      var toRead: int := Min(ready, remaining);
      got := 0;
      NothingReceived(socket);
      CountsStart(x);
      while remaining > 0 && ready > 0
        invariant Valid() && remaining == MAXTRANSPORTDATA - bytesRead == x.room - got && 0 <= toRead <= remaining
        invariant got <= |stream| && 0 <= ready && (remaining > 0 && ready > 0 ==> toRead > 0)
        invariant Received(socket, was, at, stream, got) && Counts(x, socket.calls, got, ready, remaining, toRead)
        decreases |stream| - got
      {
        ghost var call := socket.calls;
        var doneRead := ReadSome(socket, toRead, was, at, stream, got);
        if doneRead == 0 {
          if Flows(socket.chunk) { CountsEnd(x, call, got, ready, remaining, toRead); }
          return;
        }
        CountsAdvance(x, call, got, ready, remaining, toRead, doneRead);
        remaining := remaining - doneRead;
        toRead := Min(ready, remaining);
        ready := Unsigned(ready - doneRead);
        got := got + doneRead;
      }
      if Flows(socket.chunk) { CountsEnd(x, socket.calls, got, ready, remaining, toRead); }
    }

    // `got` bytes of the stream are in the buffer behind what was there before, and no
    // other byte of it has changed.
    ghost predicate Received(socket: Reader, was: seq<byte>, at: nat, stream: seq<byte>, got: nat)
      requires Valid()
      reads this, buffer, socket
    {
      |was| == MAXTRANSPORTDATA && bytesRead == at + got && got <= |stream| &&
      buffer[..] == Placed(was, at, stream[..got]) && socket.ready == stream[got..]
    }

    lemma NothingReceived(socket: Reader)
      requires Valid()
      ensures Received(socket, buffer[..], bytesRead, socket.ready, 0)
    {
    }

    // One read into the buffer.
    method ReadSome(socket: Reader, count: nat, ghost was: seq<byte>, ghost at: nat, ghost stream: seq<byte>,
                    ghost got: nat)
      returns (n: nat)
      requires Valid() && bytesRead + count <= MAXTRANSPORTDATA
      requires Received(socket, was, at, stream, got)
      modifies this`bytesRead, buffer, socket
      ensures n == Min(socket.chunk(old(socket.calls)), Min(count, |stream| - got))
      ensures Valid() && bytesRead == old(bytesRead) + n && socket.calls == old(socket.calls) + 1
      ensures got + n <= |stream| && |socket.ready| == |stream| - got - n
      ensures Received(socket, was, at, stream, got + n)
    {
      hide Placed;
      var bytes := socket.Read(count);
      n := |bytes|;
      StreamAdvances(stream, got, bytes, socket.ready);
      PlacedTwice(was, at, stream[..got], bytes);
      Append(bytes);
    }

    // Bytes that were read are in the buffer and counted.
    method Append(bytes: seq<byte>)
      requires Valid() && bytesRead + |bytes| <= MAXTRANSPORTDATA
      modifies this`bytesRead, buffer
      ensures Valid() && bytesRead == old(bytesRead) + |bytes|
      ensures buffer[..] == Placed(old(buffer[..]), old(bytesRead), bytes)
    {
      CopyInto(buffer, bytesRead, bytes);
      assert buffer[..] == old(buffer[..])[..bytesRead] + bytes + old(buffer[..])[bytesRead + |bytes|..];
      bytesRead := bytesRead + |bytes|;
    }

    // shc_dropbytes
    method DropBytes(count: nat) returns (rc: int)
      requires Valid()
      modifies this`bytesRead, buffer
      ensures Valid()
      ensures count == 0 ==> rc == -1 && buffer[..] == old(buffer[..]) && bytesRead == old(bytesRead)
      ensures count > 0 ==>
        rc == 0 && bytesRead == Left(old(bytesRead), count) &&
        buffer[..] == Shifted(old(buffer[..]), old(bytesRead), count)
    {
      if count == 0 { return -1; }
      if count == MAXTRANSPORTDATA || count >= bytesRead {
        CopyInto(buffer, 0, seq(MAXTRANSPORTDATA, _ => 0));
        bytesRead := 0;
        return 0;
      }
      hide Shifted;
      ShiftedParts(buffer[..], bytesRead, count);
      var temp := buffer[count..];
      CopyInto(buffer, count, seq(MAXTRANSPORTDATA - count, _ => 0));
      CopyInto(buffer, 0, temp);
      bytesRead := bytesRead - count;
      return 0;
    }

    // shc_dropmessage
    method DropMessage(parsed: Parsed) returns (rc: int)
      requires Valid()
      modifies this`bytesRead, buffer
      ensures Valid() && rc == 0
      ensures var count := parsed.cmdlen + parsed.datalen + 2;
        bytesRead == Left(old(bytesRead), count) &&
        buffer[..] == Shifted(old(buffer[..]), old(bytesRead), count)
    {
      rc := DropBytes(parsed.cmdlen + parsed.datalen + 2);
    }

    // memchr for zero in a part of the buffer
    method FindZero(from: nat, to: nat) returns (i: nat)
      requires from <= to <= buffer.Length
      ensures i == FirstZero(buffer[..][from..to])
    {
      i := 0;
      while from + i < to
        invariant from + i <= to && i <= FirstZero(buffer[..][from..to])
      {
        if buffer[from + i] == 0 { return; }
        i := i + 1;
      }
    }

    // sh_try_cmdparsing
    method TryCmdParsing() returns (parsed: Parsed)
      requires Valid()
      modifies this`bytesRead, buffer
      ensures Valid() && parsed == Parse(old(buffer[..]), old(bytesRead)).0
      ensures match Parse(old(buffer[..]), old(bytesRead)).1
        case DropNothing => buffer[..] == old(buffer[..]) && bytesRead == old(bytesRead)
        case DropBytes(count) =>
          bytesRead == Left(old(bytesRead), count) &&
          buffer[..] == Shifted(old(buffer[..]), old(bytesRead), count)
    {
      if bytesRead == 0 { return Parsed(SH_WRN_KEEPREADNMORE, 0, 0); }
      var cmdlen := FindZero(0, bytesRead);
      if cmdlen == bytesRead {
        if bytesRead < MAXTRANSPORTDATA { return Parsed(0, 0, 0); }
        var _ := DropBytes(MAXTRANSPORTDATA);
        return Parsed(SH_CMDERR_GARBAGECMD, 0, 0);
      }
      if cmdlen > CMDLEN {
        parsed := Parsed(SH_CMDERR_INVALIDCMD, cmdlen, 0);
        var _ := DropMessage(parsed);
        return;
      }
      var datalen := FindZero(cmdlen + 1, MAXTRANSPORTDATA);
      if datalen == MAXTRANSPORTDATA - cmdlen - 1 {
        if bytesRead < MAXTRANSPORTDATA { return Parsed(SH_WRN_KEEPREADNMORE, cmdlen, 0); }
        var _ := DropBytes(MAXTRANSPORTDATA);
        return Parsed(SH_CMDERR_DATATOOLON, cmdlen, 0);
      }
      return Parsed(0, cmdlen, datalen);
    }

    // The read branch of sh_accept_handler_thread: read, parse once, answer an error, call
    // the listeners, drop the message.
    method HandleRead(socket: Reader, bytesReady: nat) returns (outcome: Outcome, ghost got: nat)
      requires Valid() && bytesReady < SIZE_MODULUS
      modifies this`bytesRead, buffer, socket
      ensures Valid() && got <= |old(socket.ready)| && socket.ready == old(socket.ready)[got..]
      ensures old(bytesRead) + got <= MAXTRANSPORTDATA
      ensures Flows(socket.chunk) ==>
        got == Taken(socket.chunk, old(socket.calls), |old(socket.ready)|,
                     MAXTRANSPORTDATA - old(bytesRead), bytesReady)
      ensures Event(outcome, buffer[..], bytesRead) ==
        Arrive(old(buffer[..]), old(bytesRead), old(socket.ready)[..got])
    {
      hide Parse, Shifted, Placed, Taken;
      got := ReadData(socket, bytesReady);
      ghost var (was, n) := (buffer[..], bytesRead);
      var parsed := TryCmdParsing();
      WaitingDropsNothing(was, n);
      if parsed.errcode == SH_WRN_KEEPREADNMORE { return Waits, got; }
      outcome := CallListeners(parsed.errcode);
      var _ := DropMessage(parsed);
    }

    // sh_call_listeners, as far as the connection is concerned
    method CallListeners(errcode: nat) returns (outcome: Outcome)
      requires Valid()
      ensures outcome == HandOut(errcode, buffer[..], bytesRead)
    {
      var cmdlen := FindZero(0, MAXTRANSPORTDATA);
      assert buffer[..][0..MAXTRANSPORTDATA] == buffer[..];
      outcome := Handed(errcode, buffer[..cmdlen], buffer[Min(cmdlen + 1, MAXTRANSPORTDATA)..],
                        Unsigned(bytesRead - cmdlen - 1));
    }
  }

  // ---- the client --------------------------------------------------------------------------

  // How many of n bytes the sending loop has sent when it ends. It asks each time for n
  // minus the bytes of the last write.
  ghost function Sent(chunk: nat -> nat, call: nat, last: nat, total: nat, n: nat): nat
    requires last <= n
    decreases n - total
  {
    if total >= n then total
    else
      var w := Min(chunk(call), n - last);
      if w == 0 then total else Sent(chunk, call + 1, w, total + w, n)
  }

  // No write goes past the request.
  ghost predicate StaysInside(chunk: nat -> nat, call: nat, n: nat) { Sent(chunk, call, 0, 0, n) <= n }

  lemma {:induction false} SentGrows(chunk: nat -> nat, call: nat, last: nat, total: nat, n: nat)
    requires last <= n
    ensures Sent(chunk, call, last, total, n) >= total
    decreases n - total
  {
    if total < n && Min(chunk(call), n - last) > 0 {
      SentGrows(chunk, call + 1, Min(chunk(call), n - last), total + Min(chunk(call), n - last), n);
    }
  }

  /** Two writes that take the request send exactly the request. */
  lemma TwoWritesSend(chunk: nat -> nat, call: nat, n: nat)
    requires n > 0 && chunk(call) > 0 && Min(chunk(call), n) + chunk(call + 1) >= n
    ensures Sent(chunk, call, 0, 0, n) == n
  {
    var first := Min(chunk(call), n);
    if first < n {
      assert Sent(chunk, call, 0, 0, n) == Sent(chunk, call + 1, first, first, n);
      assert Sent(chunk, call + 1, first, first, n) == Sent(chunk, call + 2, n - first, n, n);
    }
  }

  /** With every number of bytes a write the loop stays inside the request exactly when
      the request is at most two bytes long. */
  lemma AlwaysStaysExactly(call: nat, n: nat)
    ensures (forall chunk: nat -> nat :: Flows(chunk) ==> StaysInside(chunk, call, n)) <==> n <= 2
  {
    if n > 2 {
      var chunk := (k: nat) => if k <= call + 1 then 1 else n;
      assert Flows(chunk) && chunk(call) == chunk(call + 1) == 1 && chunk(call + 2) == n;
      assert Sent(chunk, call, 0, 0, n) == Sent(chunk, call + 1, 1, 1, n) == Sent(chunk, call + 2, 1, 2, n);
      SentGrows(chunk, call + 3, n - 1, n + 1, n);
    } else {
      forall chunk: nat -> nat | Flows(chunk) ensures StaysInside(chunk, call, n) {
        if n > 0 { TwoWritesSend(chunk, call, n); }
      }
    }
  }

  // The part of sc_sendrecv_len that sends: command, zero byte and data. Writes that go
  // past the request go on to the end of the buffer and beyond.
  method SendRequest(socket: Writer, command: seq<byte>, data: seq<byte>) returns (rc: int)
    requires StaysInside(socket.chunk, socket.calls, |command| + |data| + 1)
    modifies socket
    ensures rc == if |command| + |data| + 1 > 1024 then -1 else 0
    ensures socket.sent == if rc != 0 then old(socket.sent)
      else
        var request := command + [0] + data;
        old(socket.sent) + request[..Sent(socket.chunk, old(socket.calls), 0, 0, |request|)]
  {
    var sendlen := |command| + |data| + 1;
    if sendlen > MAXTRANSPORTDATA { return -1; }
    var sendbuf := command + [0] + data;
    var sent, total := 0, 0;
    ghost var end := Sent(socket.chunk, socket.calls, 0, 0, sendlen);
    while sendlen - total > 0
      invariant 0 <= total <= sendlen && 0 <= sent <= sendlen
      invariant Sent(socket.chunk, socket.calls, sent, total, sendlen) == end <= sendlen
      invariant socket.sent == old(socket.sent) + sendbuf[..total]
      decreases sendlen - total
    {
      ghost var w := Min(socket.chunk(socket.calls), sendlen - sent);
      SentGrows(socket.chunk, socket.calls + 1, w, total + w, sendlen);
      sent := SendSome(socket, sendbuf, total, sendlen - sent);
      if sent == 0 { return 0; }
      total := total + sent;
    }
    return 0;
  }

  // One write of `count` bytes from `total` on, of which the stream takes only bytes that
  // the buffer holds.
  method SendSome(socket: Writer, sendbuf: seq<byte>, total: nat, count: nat) returns (n: nat)
    requires total + Min(socket.chunk(socket.calls), count) <= |sendbuf|
    modifies socket
    ensures n == Min(socket.chunk(old(socket.calls)), count) && socket.calls == old(socket.calls) + 1
    ensures total + n <= |sendbuf|
    ensures forall before: seq<byte> {:trigger before + sendbuf[..total]} ::
      old(socket.sent) == before + sendbuf[..total] ==> socket.sent == before + sendbuf[..total + n]
  {
    n := socket.Write(sendbuf[total..Min(total + count, |sendbuf|)]);
    assert sendbuf[..total + n] == sendbuf[..total] + sendbuf[total..total + n];
  }

  // sc_sendrecv: the data is a text with the zero byte at its end.
  method SendText(socket: Writer, command: seq<byte>, text: seq<byte>) returns (rc: int)
    requires StaysInside(socket.chunk, socket.calls, |Bytes(Frame(command, text))|)
    modifies socket
    ensures rc == if |Bytes(Frame(command, text))| > 1024 then -1 else 0
    ensures socket.sent == if rc != 0 then old(socket.sent)
      else
        var request := Bytes(Frame(command, text));
        old(socket.sent) + request[..Sent(socket.chunk, old(socket.calls), 0, 0, |request|)]
  {
    assert command + [0] + (text + [0]) == Bytes(Frame(command, text));
    rc := SendRequest(socket, command, text + [0]);
  }

  /** A client that waits for its reply before it sends the next request: with any number
      of bytes a read every request is handed out as it was sent. */
  method AnswerEach(fs: seq<Frame>, receiving: nat -> nat) returns (outcomes: seq<Outcome>)
    requires Flows(receiving)
    requires forall i :: 0 <= i < |fs| ==> Proper(fs[i]) && |Bytes(fs[i])| <= 1024
    ensures |outcomes| == |fs| && forall i :: 0 <= i < |fs| ==> Gives(outcomes[i], fs[i])
  {
    hide Parse, Shifted, Placed;
    var connection := new Connection();
    var socket := new Reader(receiving, []);
    outcomes := [];
    for i := 0 to |fs|
      invariant connection.Valid() && connection.bytesRead == 0 && fresh(connection.buffer)
      invariant socket.chunk == receiving && socket.ready == [] && |outcomes| == i
      invariant forall j :: 0 <= j < i ==> Gives(outcomes[j], fs[j])
    {
      socket.ready := Bytes(fs[i]);
      ghost var (buffer, calls) := (connection.buffer[..], socket.calls);
      var outcome, got := connection.HandleRead(socket, |Bytes(fs[i])|);
      WholeStreamTaken(receiving, calls, |Bytes(fs[i])|, MAXTRANSPORTDATA);
      assert Bytes(fs[i])[..got] == Bytes(fs[i]) && buffer[..0] + Bytes(fs[i]) == Bytes(fs[i]) + [];
      HandsOutAllBehind(Placed(buffer, 0, Bytes(fs[i])), got, fs[i], []);
      outcomes := outcomes + [outcome];
    }
  }
}
