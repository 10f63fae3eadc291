/** The reply that names the options this side does not know (l2cap.c:820-891): the request
    is walked a second time, and the unknown options are copied out. */
module L2capUnknown {
  import opened Prelude
  import opened Bytes
  import opened ByteArrays
  import opened L2capOptions
  import opened L2capParse

  /** One option as a peer sends it. */
  datatype WireOption = WireOption(typ: byte, payload: seq<byte>)

  predicate IsWire(o: WireOption) {
    |o.payload| < 256 && (IsOption(o.typ % 128) ==> |o.payload| == PayloadLen(o.typ % 128))
  }

  function WireBytes(o: WireOption): seq<byte>
    requires |o.payload| < 256
  {
    [o.typ, |o.payload|] + o.payload
  }

  predicate AllWire(os: seq<WireOption>) {
    forall i :: 0 <= i < |os| ==> IsWire(os[i])
  }

  function Wire(os: seq<WireOption>): seq<byte>
    requires AllWire(os)
  {
    if os == [] then [] else WireBytes(os[0]) + Wire(os[1..])
  }

  /** l2cap_configure_type_is_known: hints need no answer. */
  predicate TypeIsKnown(typ: byte) {
    typ >= HINT || IsOption(typ % 128)
  }

  /** The options that a reply has to name. */
  function Unknowns(os: seq<WireOption>): (r: seq<WireOption>)
    requires AllWire(os)
    ensures AllWire(r)
  {
    if os == [] then []
    else if TypeIsKnown(os[0].typ) then Unknowns(os[1..])
    else [os[0]] + Unknowns(os[1..])
  }

  lemma WireFirst(o: WireOption, rest: seq<byte>)
    requires IsWire(o)
    ensures var s := WireBytes(o) + rest; var body := o.payload + rest;
      Prefix(s, 2) == [o.typ, |o.payload|] && Suffix(s, 2) == body &&
      Suffix(body, |o.payload|) == rest && Prefix(body, |o.payload|) == o.payload &&
      (forall n :: 0 <= n <= |o.payload| ==> body[..n] == o.payload[..n])
  {
    assert WireBytes(o) + rest == [o.typ, |o.payload|] + (o.payload + rest);
  }

  lemma WireCons(o: WireOption, os: seq<WireOption>)
    requires IsWire(o) && AllWire(os)
    ensures AllWire([o] + os) && Wire([o] + os) == WireBytes(o) + Wire(os)
  {
    assert ([o] + os)[1..] == os;
  }

  /** The first parse: it fails with a type error exactly when there is an unknown option,
      and the size it reports is that of all unknown options together. */
  lemma {:induction false} ParseCountsUnknowns(os: seq<WireOption>, rest: seq<byte>, p: Params, unknown: nat)
    requires AllWire(os)
    ensures var r := ParseFrom(Wire(os) + rest, |Wire(os)|, p, unknown, unknown > 0, true);
      r.unknownSize == unknown + |Wire(Unknowns(os))| &&
      r.code == (if r.unknownSize > 0 then UnknownType else Parsed)
    decreases os
  {
    hide ParseFrom, Store, Clear, SetPlain;
    if os == [] {
      AllRead([] + rest, 0, p, unknown, unknown > 0, true);
    } else {
      var o, tail := os[0], Wire(os[1..]);
      assert Wire(os) + rest == WireBytes(o) + (tail + rest);
      WireFirst(o, tail + rest);
      OneOption(Wire(os) + rest, |Wire(os)|, p, unknown, unknown > 0, true);
      if IsOption(o.typ % 128) {
        var known := ParseKnown(p, o.typ, |o.payload|, o.payload + (tail + rest));
        ParseCountsUnknowns(os[1..], rest, known.params, unknown);
      } else if o.typ >= HINT {
        ParseCountsUnknowns(os[1..], rest, p, unknown);
      } else {
        ParseCountsUnknowns(os[1..], rest, p, unknown + 2 + |o.payload|);
        WireCons(o, Unknowns(os[1..]));
      }
    }
  }

  /** What stands where an option should begin is none: its header is cut off, it claims more bytes than the command
      has left, or its size is not that of its number. */
  predicate IsBad(bad: seq<byte>) {
    bad != [] && (|bad| == 1 || 2 + bad[1] > |bad| || (IsOption(bad[0] % 128) && bad[1] != PayloadLen(bad[0] % 128)))
  }

  lemma BadOptionFails(bad: seq<byte>, rest: seq<byte>, p: Params, unknown: nat, sawUnknown: bool, counting: bool)
    requires IsBad(bad)
    ensures
      var r := ParseFrom(bad + rest, |bad|, p, unknown, sawUnknown, counting);
      && r.code == (if sawUnknown then UnknownType else Corrupted)
      && r.params.mask == {} && r.params.qos == None && r.params.retxFlow == None && r.params.extFlow == None
  {
    hide ParseFrom, Store, SetPlain;
    var s := bad + rest;
    OneOption(s, |bad|, p, unknown, sawUnknown, counting);
    assert s[0] == bad[0] && (|bad| > 1 ==> s[1] == bad[1]);
  }

  /** One whole option is read, and reading goes on behind it. */
  lemma OneIsRead(o: WireOption, tail: seq<byte>, left: nat, p: Params, unknown: nat, sawUnknown: bool, counting: bool)
    returns (next: Params, count: nat)
    requires IsWire(o)
    ensures |WireBytes(o)| == 2 + |o.payload|
    ensures ParseFrom(WireBytes(o) + tail, |WireBytes(o)| + left, p, unknown, sawUnknown, counting) ==
      ParseFrom(tail, left, next, count, sawUnknown || !TypeIsKnown(o.typ), counting)
  {
    hide ParseFrom, Store, SetPlain;
    WireFirst(o, tail);
    OneOption(WireBytes(o) + tail, |WireBytes(o)| + left, p, unknown, sawUnknown, counting);
    next, count := p, unknown;
    if IsOption(o.typ % 128) {
      next := ParseKnown(p, o.typ, |o.payload|, o.payload + tail).params;
    } else if o.typ < HINT && counting {
      count := unknown + 2 + |o.payload|;
    }
  }

  /** A list that goes wrong behind any number of options is refused: the record names no option any more, whatever
      was stored before, and the error is one of the type exactly if an unknown option without hint was read. */
  lemma {:induction false} BadListIsRefused(os: seq<WireOption>, bad: seq<byte>, rest: seq<byte>, p: Params,
                                            unknown: nat, sawUnknown: bool, counting: bool)
    requires AllWire(os) && IsBad(bad)
    ensures
      var r := ParseFrom(Wire(os) + bad + rest, |Wire(os)| + |bad|, p, unknown, sawUnknown, counting);
      && r.code == (if sawUnknown || Unknowns(os) != [] then UnknownType else Corrupted)
      && r.params.mask == {} && r.params.qos == None && r.params.retxFlow == None && r.params.extFlow == None
    decreases |os|
  {
    hide ParseFrom, ParseKnown, IsBad, WireBytes, TypeIsKnown;
    if os == [] {
      assert [] + bad + rest == bad + rest;
      BadOptionFails(bad, rest, p, unknown, sawUnknown, counting);
    } else {
      var o, tail, left := os[0], Wire(os[1..]) + bad + rest, |Wire(os[1..])| + |bad|;
      assert Wire(os) + bad + rest == WireBytes(o) + tail;
      var next, count := OneIsRead(o, tail, left, p, unknown, sawUnknown, counting);
      BadListIsRefused(os[1..], bad, rest, next, count, sawUnknown || !TypeIsKnown(o.typ), counting);
    }
  }

  /** Whatever a peer sends is a list of options, or one that goes wrong behind some of them. */
  lemma {:induction false} EveryList(s: seq<byte>) returns (os: seq<WireOption>, bad: seq<byte>)
    ensures AllWire(os) && s == Wire(os) + bad && (bad == [] || IsBad(bad))
    decreases |s|
  {
    if s == [] || IsBad(s) {
      os, bad := [], s;
    } else {
      var n: int := s[1];
      n := n + 2;
      var o := WireOption(s[0], s[2..n]);
      os, bad := EveryList(s[n..]);
      WireCons(o, os);
      assert s == WireBytes(o) + s[n..];
      os := [o] + os;
    }
  }

  // ----- the copy loop (l2cap.c:873-880): chunks of at most 32 bytes, 8-bit counter -----

  /** The buffer the chunks pass through. It is not initialised: where the stream ends early, what it held
      before is written out. */
  type Chunk = s: seq<byte> | |s| == 32 witness seq(32, _ => 0)

  function ChunkLen(size: byte): nat {
    if size < 32 then size else 32
  }

  /** What has been written, what is left of the stream, and the buffer. */
  datatype Copy = Copy(written: seq<byte>, rest: seq<byte>, buffer: Chunk)

  /** A short read leaves the end of the memory it reads into as it was. */
  function ReadInto(was: seq<byte>, data: seq<byte>): (r: seq<byte>)
    requires |data| <= |was|
    ensures |r| == |was|
  {
    data + was[|data|..]
  }

  /** The copy after k turns. Every chunk has the same length, also the last. */
  function CopyAfter(s: seq<byte>, buffer: Chunk, size: byte, k: nat): (c: Copy)
    ensures |c.written| == k * ChunkLen(size)
  {
    if k == 0 then Copy([], s, buffer)
    else
      var c, n := CopyAfter(s, buffer, size, k - 1), ChunkLen(size);
      var filled := ReadInto(c.buffer[..n], Prefix(c.rest, n));
      OneMoreTurn(k, n);
      Copy(c.written + filled, Suffix(c.rest, n), filled + c.buffer[n..])
  }

  lemma OneMoreTurn(k: nat, n: nat)
    requires k > 0
    ensures (k - 1) * n + n == k * n
  {
  }

  /** The 8-bit counter after k turns. */
  function ParamRead(size: byte, k: nat): nat {
    k * ChunkLen(size) % 256
  }

  /** The loop ends after k turns. */
  ghost predicate EndsAfter(size: byte, k: nat) {
    ParamRead(size, k) >= size && forall j: nat :: j < k ==> ParamRead(size, j) < size
  }

  /** Above 224 the 8-bit counter wraps before it reaches the size. */
  predicate CopyEnds(size: byte) {
    size <= 224
  }

  predicate CopiedWhole(size: byte) {
    size <= 32 || size % 32 == 0
  }

  function Turns(size: byte): nat
    requires CopyEnds(size)
  {
    if size == 0 then 0 else if size < 32 then 1 else (size + 31) / 32
  }

  lemma TurnsEnd(size: byte)
    requires CopyEnds(size)
    ensures EndsAfter(size, Turns(size)) && Turns(size) <= 7
    ensures CopiedWhole(size) ==> Turns(size) * ChunkLen(size) == size
    ensures !CopiedWhole(size) ==> Turns(size) * ChunkLen(size) > size
  {
    var k := Turns(size);
    forall j: nat | j < k
      ensures ParamRead(size, j) < size
    {
      if size >= 32 {
        assert 32 * j < size;
      }
    }
  }

  lemma EndsOnce(size: byte, j: nat, k: nat)
    requires EndsAfter(size, j) && EndsAfter(size, k)
    ensures j == k
  {
  }

  /** The copy loop ends if and only if the payload has at most 224 bytes. */
  lemma {:induction false} CopyEndsIff(size: byte)
    ensures (exists k: nat :: EndsAfter(size, k)) <==> CopyEnds(size)
  {
    if CopyEnds(size) {
      TurnsEnd(size);
    } else {
      forall k: nat
        ensures ParamRead(size, k) <= 224
      {
        assert k * 32 % 256 == 32 * (k % 8);
      }
    }
  }

  /** As long as the stream lasts, whole chunks are copied. */
  lemma {:induction false} WholeChunks(s: seq<byte>, buffer: Chunk, size: byte, k: nat)
    requires k * ChunkLen(size) <= |s|
    ensures CopyAfter(s, buffer, size, k).written == s[..k * ChunkLen(size)]
    ensures CopyAfter(s, buffer, size, k).rest == s[k * ChunkLen(size)..]
    decreases k
  {
    if k == 0 {
      assert s[..0] == [] && s[0..] == s;
    } else {
      var n := ChunkLen(size);
      OneMoreTurn(k, n);
      var at := (k - 1) * n;
      WholeChunks(s, buffer, size, k - 1);
      ChunkOff(s, at, n, CopyAfter(s, buffer, size, k - 1).buffer[..n]);
    }
  }

  lemma ChunkOff(s: seq<byte>, at: nat, n: nat, was: seq<byte>)
    requires at + n <= |s| && |was| == n
    ensures s[..at] + ReadInto(was, Prefix(s[at..], n)) == s[..at + n]
    ensures Suffix(s[at..], n) == s[at + n..]
  {
  }

  /** Of every stream that holds the payload, the loop writes the payload and nothing more, and stands
      behind it at the end, if and only if the payload has at most 32 bytes or a multiple of 32. */
  lemma {:induction false} CopyExactIff(s: seq<byte>, buffer: Chunk, size: byte)
    requires |s| >= size
    ensures (exists k: nat :: EndsAfter(size, k) && CopyAfter(s, buffer, size, k).written == s[..size]
                              && CopyAfter(s, buffer, size, k).rest == s[size..]) <==> CopiedWhole(size)
  {
    hide EndsAfter, ChunkLen;
    CopyEndsIff(size);
    if CopyEnds(size) {
      var k := Turns(size);
      TurnsEnd(size);
      if CopiedWhole(size) {
        WholeChunks(s, buffer, size, k);
      } else {
        forall j: nat | EndsAfter(size, j)
          ensures CopyAfter(s, buffer, size, j).written != s[..size]
        {
          EndsOnce(size, j, k);
          assert |CopyAfter(s, buffer, size, k).written| > size;
        }
      }
    }
  }

  /** The copy of one payload. */
  method CopyPayload(reader: ByteStream, size: byte, buffer: array<byte>) returns (copied: seq<byte>)
    requires reader.Valid() && CopyEnds(size) && buffer.Length == 32
    modifies reader, buffer
    ensures reader.Valid()
    ensures Copy(copied, reader.Rest(), buffer[..]) == CopyAfter(old(reader.Rest()), old(buffer[..]), size, Turns(size))
  {
    copied := [];
    var paramRead: nat, len := 0, ChunkLen(size);
    ghost var all, was, k, n := reader.Rest(), buffer[..], 0, Turns(size);
    TurnsEnd(size);
    hide ChunkLen, Prefix, Suffix, ReadInto, Turns;
    while paramRead < size
      invariant reader.Valid() && paramRead == ParamRead(size, k) && k <= n
      invariant Copy(copied, reader.Rest(), buffer[..]) == CopyAfter(all, was, size, k)
      decreases n - k
    {
      EndsLater(size, k, n);
      ghost var before := buffer[..];
      var data := reader.Read(len);
      PutBytes(buffer, 0, data);
      BufferFilled(before, buffer[..], data, len);
      copied := copied + buffer[..len];
      paramRead := (paramRead + len) % 256;
      k := k + 1;
      CounterStep(size, k);
    }
    EndsThen(size, k, n);
  }

  lemma EndsLater(size: byte, k: nat, n: nat)
    requires EndsAfter(size, n) && k <= n && ParamRead(size, k) < size
    ensures k < n
  {
  }

  lemma EndsThen(size: byte, k: nat, n: nat)
    requires EndsAfter(size, n) && k <= n && ParamRead(size, k) >= size
    ensures k == n
  {
  }

  lemma CounterStep(size: byte, k: nat)
    requires k > 0
    ensures ParamRead(size, k) == (ParamRead(size, k - 1) + ChunkLen(size)) % 256
  {
    hide ChunkLen;
    var n := ChunkLen(size);
    OneMoreTurn(k, n);
    WrapLater((k - 1) * n, k * n, n);
  }

  lemma WrapLater(a: nat, b: nat, n: nat)
    requires a + n == b
    ensures (a % 256 + n) % 256 == b % 256
  {
  }

  lemma BufferFilled(was: seq<byte>, now: seq<byte>, data: seq<byte>, n: nat)
    requires |data| <= n <= |was| == 32 && now == Patched(was, 0, data)
    ensures now[..n] == ReadInto(was[..n], data) && now == ReadInto(was[..n], data) + was[n..]
  {
  }

  // ----- the second walk -----

  /** What the local variables that the walk does not initialise hold. */
  datatype Stack = Stack(header: Header, buffer: Chunk)

  type Header = s: seq<byte> | |s| == 2 witness [0, 0]

  /** The reply with these options is sent, or a copy loop never ends, or the 16-bit counter of the walk
      wraps round. */
  datatype Reply = Sent(options: seq<byte>) | NeverSent | CounterWraps

  /** What the walk makes of any stream, with `read` bytes of the command behind it. */
  function WalkFrom(s: seq<byte>, read: nat, cmdSize: nat, reply: seq<byte>, stack: Stack): Reply
    decreases cmdSize - read
  {
    if read >= cmdSize then Sent(reply)
    else
      var header := ReadInto(stack.header, Prefix(s, 2));
      var typ, size, body := header[0], header[1], Suffix(s, 2);
      if !TypeIsKnown(typ) && !CopyEnds(size) then NeverSent
      else if read + 2 + size >= 0x1_0000 then CounterWraps
      else if TypeIsKnown(typ) then
        WalkFrom(Suffix(body, size), read + 2 + size, cmdSize, reply, stack.(header := header))
      else
        var c := CopyAfter(body, stack.buffer, size, Turns(size));
        WalkFrom(c.rest, read + 2 + size, cmdSize, reply + header + c.written, Stack(header, c.buffer))
  }

  function SecondPass(s: seq<byte>, cmdSize: nat, stack: Stack): Reply
  {
    WalkFrom(s, 0, cmdSize, [], stack)
  }

  /** How the walk goes on behind the header at the front of `s`. */
  lemma WalkStep(s: seq<byte>, read: nat, cmdSize: nat, reply: seq<byte>, was: Stack, header: seq<byte>)
    requires read < cmdSize && header == ReadInto(was.header, Prefix(s, 2))
    ensures |header| == 2
    ensures
      var here, typ, size, body := WalkFrom(s, read, cmdSize, reply, was), header[0], header[1], Suffix(s, 2);
      if !TypeIsKnown(typ) && !CopyEnds(size) then here == NeverSent
      else if read + 2 + size >= 0x1_0000 then here == CounterWraps
      else if TypeIsKnown(typ) then
        here == WalkFrom(Suffix(body, size), read + 2 + size, cmdSize, reply, Stack(header, was.buffer))
      else
        var c := CopyAfter(body, was.buffer, size, Turns(size));
        here == WalkFrom(c.rest, read + 2 + size, cmdSize, reply + header + c.written, Stack(header, c.buffer))
  {
    hide TypeIsKnown, CopyEnds, CopyAfter, Turns, Suffix, Prefix;
  }

  lemma EndsWalk(s: seq<byte>, read: nat, cmdSize: nat, reply: seq<byte>, stack: Stack)
    requires read >= cmdSize
    ensures WalkFrom(s, read, cmdSize, reply, stack) == Sent(reply)
  {
  }

  method NewBuffer(content: Chunk) returns (buffer: array<byte>)
    ensures fresh(buffer) && buffer.Length == 32 && buffer[..] == content
  {
    buffer := new byte[32](i requires 0 <= i < 32 => content[i]);
  }

  /** l2cap_configure_reply_type_error: the second walk, over any stream for which it ends. */
  method ReplyTypeError(reader: ByteStream, cmdSize: nat, stack: Stack) returns (reply: seq<byte>)
    requires reader.Valid() && SecondPass(reader.Rest(), cmdSize, stack).Sent?
    modifies reader
    ensures reader.Valid() && SecondPass(old(reader.Rest()), cmdSize, stack) == Sent(reply)
  {
    var header := stack.header;
    var buffer := NewBuffer(stack.buffer);
    hide TypeIsKnown, CopyEnds, CopyAfter, Turns, Suffix, Prefix, WalkFrom, ReadInto;
    ghost var outcome := SecondPass(reader.Rest(), cmdSize, stack);
    reply := [];
    var read: nat := 0;
    while read < cmdSize
      invariant reader.Valid() && |header| == 2 && buffer.Length == 32 && fresh(buffer)
      invariant WalkFrom(reader.Rest(), read, cmdSize, reply, Stack(header, buffer[..])) == outcome
    {
      ghost var s, was := reader.Rest(), Stack(header, buffer[..]);
      var data := reader.Read(2);
      header := ReadInto(header, data);
      WalkStep(s, read, cmdSize, reply, was, header);
      var typ: byte, paramSize: byte := header[0], header[1];
      if !TypeIsKnown(typ) {
        var payload := CopyPayload(reader, paramSize, buffer);
        reply := reply + header + payload;
      } else {
        var _ := reader.Read(paramSize);
      }
      read := read + 2 + paramSize;
    }
    EndsWalk(reader.Rest(), read, cmdSize, reply, Stack(header, buffer[..]));
  }

  // ----- what the reply to a well-formed list of options is -----

  /** The first unknown option whose copy is not exact, and the unknown ones before it. */
  function BeforeSlip(os: seq<WireOption>): (r: seq<WireOption>)
    requires AllWire(os)
    ensures AllWire(r)
  {
    if os == [] then []
    else if TypeIsKnown(os[0].typ) then BeforeSlip(os[1..])
    else if CopiedWhole(|os[0].payload|) then [os[0]] + BeforeSlip(os[1..])
    else []
  }

  function Slip(os: seq<WireOption>): (r: Option<WireOption>)
    requires AllWire(os)
    ensures r.Some? ==> IsWire(r.value) && !CopiedWhole(|r.value.payload|)
  {
    if os == [] then None
    else if TypeIsKnown(os[0].typ) || CopiedWhole(|os[0].payload|) then Slip(os[1..])
    else Some(os[0])
  }

  /** One option of a list, read by the walk. */
  lemma WalkOne(o: WireOption, rest: seq<byte>, read: nat, cmdSize: nat, reply: seq<byte>, stack: Stack)
    requires IsWire(o) && read < cmdSize
    ensures |WireBytes(o)| == 2 + |o.payload|
    ensures
      var size: byte, header: seq<byte>, here := |o.payload|, [o.typ, |o.payload|],
        WalkFrom(WireBytes(o) + rest, read, cmdSize, reply, stack);
      if !TypeIsKnown(o.typ) && !CopyEnds(size) then here == NeverSent
      else if read + 2 + size >= 0x1_0000 then here == CounterWraps
      else if TypeIsKnown(o.typ) then
        here == WalkFrom(rest, read + 2 + size, cmdSize, reply, Stack(header, stack.buffer))
      else
        var c := CopyAfter(o.payload + rest, stack.buffer, size, Turns(size));
        here == WalkFrom(c.rest, read + 2 + size, cmdSize, reply + header + c.written, Stack(header, c.buffer))
  {
    var s: seq<byte>, header: seq<byte> := WireBytes(o) + rest, [o.typ, |o.payload|];
    WireFirst(o, rest);
    assert header + stack.header[2..] == header;
    hide TypeIsKnown, CopyEnds, CopyAfter, Turns, Suffix, Prefix, WalkFrom;
    WalkStep(s, read, cmdSize, reply, stack, header);
  }

  lemma WholeCopy(o: WireOption, rest: seq<byte>, buffer: Chunk) returns (c: Copy)
    requires IsWire(o) && CopiedWhole(|o.payload|)
    ensures c == CopyAfter(o.payload + rest, buffer, |o.payload|, Turns(|o.payload|))
    ensures c.written == o.payload && c.rest == rest
    ensures forall reply: seq<byte> :: reply + [o.typ, |o.payload|] + c.written == reply + WireBytes(o)
  {
    var size: byte, s := |o.payload|, o.payload + rest;
    hide CopyAfter, ChunkLen, Turns;
    c := CopyAfter(s, buffer, size, Turns(size));
    TurnsEnd(size);
    WholeChunks(s, buffer, size, Turns(size));
    assert s[..size] == o.payload && s[size..] == rest;
    forall reply: seq<byte>
      ensures reply + [o.typ, |o.payload|] + o.payload == reply + WireBytes(o)
    {
      assert reply + [o.typ, |o.payload|] + o.payload == reply + ([o.typ, |o.payload|] + o.payload);
    }
  }

  /** A copy that is not exact begins with the payload and goes on. */
  lemma {:induction false} CopyBegins(s: seq<byte>, buffer: Chunk, size: byte)
    requires |s| >= size && CopyEnds(size) && !CopiedWhole(size)
    ensures s[..size] < CopyAfter(s, buffer, size, Turns(size)).written
  {
    TurnsEnd(size);
    var k: nat := Turns(size) - 1;
    assert k * 32 <= size < (k + 1) * 32;
    WholeChunks(s, buffer, size, k);
    var c := CopyAfter(s, buffer, size, k);
    var last := CopyAfter(s, buffer, size, k + 1);
    assert last.written == s[..k * 32] + ReadInto(c.buffer, Prefix(s[k * 32..], 32));
  }

  lemma {:induction false} ReplyGrows(s: seq<byte>, read: nat, cmdSize: nat, reply: seq<byte>, stack: Stack)
    ensures var outcome := WalkFrom(s, read, cmdSize, reply, stack);
      outcome.Sent? ==> reply <= outcome.options
    decreases cmdSize - read
  {
    hide TypeIsKnown, CopyEnds, CopyAfter, Turns, Suffix, Prefix, ReadInto, WalkFrom;
    if read >= cmdSize {
      EndsWalk(s, read, cmdSize, reply, stack);
    } else {
      var header := ReadInto(stack.header, Prefix(s, 2));
      WalkStep(s, read, cmdSize, reply, stack, header);
      var typ, size, body := header[0], header[1], Suffix(s, 2);
      if TypeIsKnown(typ) {
        ReplyGrows(Suffix(body, size), read + 2 + size, cmdSize, reply, Stack(header, stack.buffer));
      } else if CopyEnds(size) {
        var c := CopyAfter(body, stack.buffer, size, Turns(size));
        ReplyGrows(c.rest, read + 2 + size, cmdSize, reply + header + c.written, Stack(header, c.buffer));
      }
    }
  }

  lemma LongerBehind(reply: seq<byte>, header: seq<byte>, payload: seq<byte>, written: seq<byte>)
    requires payload < written
    ensures reply + (header + payload) < reply + header + written
  {
    assert reply + (header + payload) == reply + header + payload;
  }

  lemma SlippedStep(o: WireOption, rest: seq<byte>, read: nat, cmdSize: nat, reply: seq<byte>,
                    stack: Stack) returns (c: Copy)
    requires IsWire(o) && !TypeIsKnown(o.typ) && read < cmdSize
    requires CopyEnds(|o.payload|) && !CopiedWhole(|o.payload|)
    ensures o.payload < c.written
    ensures
      var next, header: seq<byte>, here := read + 2 + |o.payload|, [o.typ, |o.payload|],
        WalkFrom(WireBytes(o) + rest, read, cmdSize, reply, stack);
      here == CounterWraps ||
      here == WalkFrom(c.rest, next, cmdSize, reply + header + c.written, Stack(header, c.buffer))
  {
    var size: byte, s := |o.payload|, o.payload + rest;
    assert s[..size] == o.payload;
    hide TypeIsKnown, CopyEnds, CopiedWhole, CopyAfter, Turns, WalkFrom, WireBytes;
    c := CopyAfter(s, stack.buffer, size, Turns(size));
    CopyBegins(s, stack.buffer, size);
    WalkOne(o, rest, read, cmdSize, reply, stack);
  }

  lemma SlippedCopy(o: WireOption, rest: seq<byte>, read: nat, cmdSize: nat, reply: seq<byte>, stack: Stack)
    requires IsWire(o) && !TypeIsKnown(o.typ) && read < cmdSize
    requires CopyEnds(|o.payload|) && !CopiedWhole(|o.payload|)
    ensures var outcome := WalkFrom(WireBytes(o) + rest, read, cmdSize, reply, stack);
      outcome.Sent? ==> reply + WireBytes(o) < outcome.options
  {
    var header: seq<byte> := [o.typ, |o.payload|];
    assert WireBytes(o) == header + o.payload;
    hide TypeIsKnown, CopyEnds, CopiedWhole, WalkFrom, WireBytes;
    var c := SlippedStep(o, rest, read, cmdSize, reply, stack);
    LongerBehind(reply, header, o.payload, c.written);
    ReplyGrows(c.rest, read + 2 + |o.payload|, cmdSize, reply + header + c.written, Stack(header, c.buffer));
  }

  lemma WireHead(os: seq<WireOption>)
    requires AllWire(os)
    ensures if os == [] then Wire(os) == [] else
      && IsWire(os[0]) && Wire(os) == WireBytes(os[0]) + Wire(os[1..])
      && |WireBytes(os[0])| == 2 + |os[0].payload|
  {
  }

  lemma EndsBelow225(size: byte)
    ensures CopyEnds(size) <==> size <= 224
    ensures CopiedWhole(size) ==> CopyEnds(size)
  {
  }

  /** The reply to any list of options, whatever follows it in the stream and whatever the stack holds:
      exactly the unknown options if all of them are copied exactly; none at all if the first that is not
      has more than 224 bytes; and otherwise it begins with that option and the ones before it, and goes
      on behind it with what the copy has read too much. */
  lemma {:induction false} ReplyOutcome(os: seq<WireOption>, rest: seq<byte>, read: nat, cmdSize: nat,
                                        reply: seq<byte>, stack: Stack)
    requires AllWire(os) && read + |Wire(os)| == cmdSize < 0x1_0000
    ensures
      var outcome := WalkFrom(Wire(os) + rest, read, cmdSize, reply, stack);
      match Slip(os)
      case None => outcome == Sent(reply + Wire(Unknowns(os)))
      case Some(o) =>
        if |o.payload| > 224 then outcome == NeverSent
        else outcome.Sent? ==> reply + Wire(BeforeSlip(os)) + WireBytes(o) < outcome.options
    decreases os
  {
    hide WalkFrom, Wire, WireBytes, CopiedWhole, CopyEnds, TypeIsKnown;
    WireHead(os);
    if os == [] {
      EndsWalk([] + rest, read, cmdSize, reply, stack);
      assert reply + [] == reply;
    } else {
      var o, tail, others := os[0], Wire(os[1..]) + rest, os[1..];
      assert (WireBytes(o) + Wire(others)) + rest == WireBytes(o) + tail;
      WalkOne(o, tail, read, cmdSize, reply, stack);
      EndsBelow225(|o.payload|);
      if TypeIsKnown(o.typ) {
        ReplyOutcome(others, rest, read + |WireBytes(o)|, cmdSize, reply, Stack([o.typ, |o.payload|], stack.buffer));
      } else if CopiedWhole(|o.payload|) {
        var c := WholeCopy(o, tail, stack.buffer);
        ReplyOutcome(others, rest, read + |WireBytes(o)|, cmdSize, reply + WireBytes(o),
            Stack([o.typ, |o.payload|], c.buffer));
        WireCons(o, Unknowns(others));
        WireCons(o, BeforeSlip(others));
        assert (reply + WireBytes(o)) + Wire(Unknowns(others)) == reply + (WireBytes(o) + Wire(Unknowns(others)));
        assert (reply + WireBytes(o)) + Wire(BeforeSlip(others)) == reply + (WireBytes(o) + Wire(BeforeSlip(others)));
      } else if CopyEnds(|o.payload|) {
        SlippedCopy(o, tail, read, cmdSize, reply, stack);
        WireHead([]);
        assert reply + [] == reply;
      }
    }
  }

  /** Both passes together: the first counts the size of the unknown options. The second writes exactly these
      if all of them are copied exactly, and it does not if only the last of them is not. */
  lemma ReplyExactIff(os: seq<WireOption>, rest: seq<byte>, p: Params, stack: Stack)
    requires AllWire(os) && |Wire(os)| < 0x1_0000
    ensures
      var first, second := Parse(Wire(os) + rest, |Wire(os)|, p, true), SecondPass(Wire(os) + rest, |Wire(os)|, stack);
      && first.unknownSize == |Wire(Unknowns(os))| && (first.code == UnknownType <==> Unknowns(os) != [])
      && (Slip(os).None? ==> second == Sent(Wire(Unknowns(os))))
      && (Slip(os).Some? && BeforeSlip(os) + [Slip(os).value] == Unknowns(os) ==> second != Sent(Wire(Unknowns(os))))
  {
    ParseCountsUnknowns(os, rest, p, 0);
    ReplyOutcome(os, rest, 0, |Wire(os)|, [], stack);
    hide WalkFrom, Wire, WireBytes, Unknowns, BeforeSlip, ParseFrom;
    if Slip(os).Some? {
      WireSnoc(BeforeSlip(os), Slip(os).value);
    }
  }

  /** When an unknown option before the last one is not copied exactly, the reply can still be exact: the copy of an
      option of 33 bytes takes in the whole next one of 29, and the walk, which has fallen behind by that much, makes
      up for it on a hinted option that happens to stand in the stream once more. */
  lemma SlipGoesUnseen(a: WireOption, b: WireOption, h: WireOption, rest: seq<byte>, stack: Stack)
    requires IsWire(a) && !TypeIsKnown(a.typ) && |a.payload| == 33
    requires IsWire(b) && !TypeIsKnown(b.typ) && |b.payload| == 29
    requires IsWire(h) && TypeIsKnown(h.typ) && |h.payload| == 29
    ensures
      var os := [a, b, h];
      && AllWire(os) && |Wire(os)| == 97 && Slip(os) == Some(a) && BeforeSlip(os) + [a] != Unknowns(os)
      && SecondPass(Wire(os) + (WireBytes(h) + rest), 97, stack) == Sent(Wire(Unknowns(os)))
  {
    ThreeOptions(a, b, h);
    var tail := WireBytes(h) + (WireBytes(h) + rest);
    var s := a.payload + (WireBytes(b) + tail);
    assert Wire([a, b, h]) + (WireBytes(h) + rest) == WireBytes(a) + (WireBytes(b) + tail);
    hide WalkFrom, Wire, WireBytes, Slip, BeforeSlip, Unknowns, TypeIsKnown, CopyAfter, Turns;
    var c := CopyAfter(s, stack.buffer, 33, Turns(33));
    var written: seq<byte> := [a.typ, 33] + c.written;
    TakesInTheNext(a, b, tail, stack.buffer);
    WalkOne(a, WireBytes(b) + tail, 0, 97, [], stack);
    assert [] + [a.typ, 33] + c.written == written;
    assert WireBytes(a) + WireBytes(b) == written;
    WalkOne(h, WireBytes(h) + rest, 35, 97, written, Stack([a.typ, 33], c.buffer));
    WalkOne(h, rest, 66, 97, written, Stack([h.typ, 29], c.buffer));
    EndsWalk(rest, 97, 97, written, Stack([h.typ, 29], c.buffer));
  }

  lemma ThreeOptions(a: WireOption, b: WireOption, h: WireOption)
    requires IsWire(a) && !TypeIsKnown(a.typ) && |a.payload| == 33
    requires IsWire(b) && !TypeIsKnown(b.typ) && |b.payload| == 29
    requires IsWire(h) && TypeIsKnown(h.typ) && |h.payload| == 29
    ensures
      var os := [a, b, h];
      && AllWire(os) && Wire(os) == WireBytes(a) + (WireBytes(b) + WireBytes(h)) && |Wire(os)| == 97
      && Slip(os) == Some(a) && BeforeSlip(os) + [a] == [a] && Unknowns(os) == [a, b]
      && Wire(Unknowns(os)) == WireBytes(a) + WireBytes(b)
  {
    hide TypeIsKnown, WireBytes;
    OneIsWire(h);
    OneIsWire(b);
    OneIsWire(a);
    WireCons(b, [h]);
    WireCons(a, [b, h]);
    WireCons(a, [b]);
    assert [b] + [h] == [b, h] && [a] + [b, h] == [a, b, h] && [a] + [b] == [a, b];
    assert [a, b, h][1..] == [b, h] && [b, h][1..] == [h] && [h][1..] == [];
    assert Unknowns([h]) == [] && Unknowns([b, h]) == [b];
  }

  /** The copy of 33 bytes takes 64. */
  lemma TakesInTheNext(a: WireOption, b: WireOption, tail: seq<byte>, buffer: Chunk)
    requires IsWire(a) && |a.payload| == 33 && IsWire(b) && |b.payload| == 29
    ensures
      var c := CopyAfter(a.payload + (WireBytes(b) + tail), buffer, 33, Turns(33));
      [a.typ, 33] + c.written == WireBytes(a) + WireBytes(b) && c.rest == tail
  {
    var s := a.payload + (WireBytes(b) + tail);
    hide CopyAfter;
    WholeChunks(s, buffer, 33, 2);
    assert s == (a.payload + WireBytes(b)) + tail && s[..64] == a.payload + WireBytes(b) && s[64..] == tail;
    assert [a.typ, 33] + (a.payload + WireBytes(b)) == WireBytes(a) + WireBytes(b);
  }

  lemma {:induction false} WireSnoc(os: seq<WireOption>, o: WireOption)
    requires AllWire(os) && IsWire(o)
    ensures AllWire(os + [o]) && Wire(os + [o]) == Wire(os) + WireBytes(o)
  {
    hide WireBytes;
    if os == [] {
      WireCons(o, []);
    } else {
      WireSnoc(os[1..], o);
      assert (os + [o])[1..] == os[1..] + [o];
    }
  }

  function Unnamed(n: byte): (o: WireOption)
    ensures IsWire(o) && !TypeIsKnown(o.typ)
  {
    WireOption(0x20, seq(n, _ => 0))
  }

  /** The 16-bit counter of the walk can wrap only in a request of nearly 64 KiB. */
  lemma {:induction false} NoWrap(s: seq<byte>, read: nat, cmdSize: nat, reply: seq<byte>, stack: Stack)
    requires cmdSize <= 0x1_0000 - 0x101
    ensures WalkFrom(s, read, cmdSize, reply, stack) != CounterWraps
    decreases cmdSize - read
  {
    hide TypeIsKnown, CopyEnds, CopyAfter, Turns, Suffix, Prefix, ReadInto, WalkFrom;
    if read >= cmdSize {
      EndsWalk(s, read, cmdSize, reply, stack);
    } else {
      var header := ReadInto(stack.header, Prefix(s, 2));
      WalkStep(s, read, cmdSize, reply, stack, header);
      var typ, size, body := header[0], header[1], Suffix(s, 2);
      if TypeIsKnown(typ) {
        NoWrap(Suffix(body, size), read + 2 + size, cmdSize, reply, Stack(header, stack.buffer));
      } else if CopyEnds(size) {
        var c := CopyAfter(body, stack.buffer, size, Turns(size));
        NoWrap(c.rest, read + 2 + size, cmdSize, reply + header + c.written, Stack(header, c.buffer));
      }
    }
  }

  /** One unknown option of 33 bytes makes 66 bytes where 35 are counted; one of 225 bytes is copied for ever. */
  lemma SlipExamples(rest: seq<byte>, p: Params, stack: Stack)
    ensures
      var s := WireBytes(Unnamed(33)) + rest;
      Parse(s, 35, p, true).unknownSize == 35 &&
      SecondPass(s, 35, stack).Sent? && |SecondPass(s, 35, stack).options| == 66
    ensures
      var s := WireBytes(Unnamed(225)) + rest;
      Parse(s, 227, p, true).code == UnknownType && SecondPass(s, 227, stack) == NeverSent
  {
    hide WalkFrom, ParseFrom, CopyAfter, WireBytes, Wire;
    var o := Unnamed(33);
    OneIsWire(o);
    OneIsWire(Unnamed(225));
    ParseCountsUnknowns([o], rest, p, 0);
    ParseCountsUnknowns([Unnamed(225)], rest, p, 0);
    WalkOne(o, rest, 0, 35, [], stack);
    WalkOne(Unnamed(225), rest, 0, 227, [], stack);
    var c := CopyAfter(o.payload + rest, stack.buffer, 33, Turns(33));
    EndsWalk(c.rest, 35, 35, [] + [o.typ, 33] + c.written, Stack([o.typ, 33], c.buffer));
  }

  lemma OneIsWire(o: WireOption)
    requires IsWire(o)
    ensures AllWire([o]) && Wire([o]) == WireBytes(o) && |WireBytes(o)| == 2 + |o.payload|
    ensures !TypeIsKnown(o.typ) ==> Unknowns([o]) == [o]
  {
    assert Wire([o]) == WireBytes(o) + Wire([o][1..]);
  }
}
