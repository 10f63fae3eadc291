/** ACL packets on the wire: how a message is cut into them, and what the receiver makes of any
    stream of them (acl.c:12-98, 329-358; l2cap.c:1283-1302). */
module AclFrames {
  import opened Prelude
  import opened Bytes
  import opened Buffer

  const ACL_HEADER: nat := 4
  const L2CAP_HEADER: nat := 4
  const CONTINUATION: nat := 1
  const FIRST_FLUSH: nat := 2
  /** Stored as the expected size while the rest of a refused message goes by. */
  const INVALID: nat := 0xffff
  const SIGNALLING: nat := 1

  type handle = x: int | 0 <= x < 0x1000

  // ----- sending -----

  function Header(h: handle, boundary: nat, broadcast: nat, size: u16): (s: seq<byte>)
    requires boundary < 4 && broadcast < 4
    ensures |s| == ACL_HEADER
  {
    LittleEndian(h + 0x1000 * boundary + 0x4000 * broadcast, 2) + LittleEndian(size, 2)
  }

  function Frame(h: handle, boundary: nat, broadcast: nat, chunk: seq<byte>): (p: seq<byte>)
    requires boundary < 4 && broadcast < 4 && |chunk| < 0x1_0000
    ensures |p| == ACL_HEADER + |chunk|
  {
    Header(h, boundary, broadcast, |chunk|) + chunk
  }

  /** The packets of one message: a header and at most `cap` bytes each. */
  function Frames(h: handle, boundary: nat, broadcast: nat, payload: seq<byte>, cap: u16): (frames: seq<seq<byte>>)
    requires boundary < 4 && broadcast < 4 && cap > 0
    ensures forall f :: f in frames ==> ACL_HEADER < |f| <= ACL_HEADER + cap
    decreases |payload|
  {
    if payload == [] then []
    else if |payload| <= cap then [Frame(h, boundary, broadcast, payload)]
    else [Frame(h, boundary, broadcast, payload[..cap])] + Frames(h, CONTINUATION, broadcast, payload[cap..], cap)
  }

  // ----- what a packet says -----

  function Word(s: seq<byte>, at: nat): (v: u16)
    requires at + 2 <= |s|
  {
    var low: int, high: int := s[at], s[at + 1];
    low + 0x100 * high
  }

  function HandleOf(p: seq<byte>): handle
    requires |p| >= ACL_HEADER
  {
    Word(p, 0) % 0x1000
  }

  function BoundaryOf(p: seq<byte>): nat
    requires |p| >= ACL_HEADER
  {
    Word(p, 0) / 0x1000 % 4
  }

  function LengthOf(p: seq<byte>): u16
    requires |p| >= ACL_HEADER
  {
    Word(p, 2)
  }

  lemma WordOfLittleEndian(v: u16)
    ensures Word(LittleEndian(v, 2), 0) == v
  {
    assert LittleEndian(v, 2) == [v % 256] + ([v / 256 % 256] + LittleEndian(v / 256 / 256, 0));
  }

  lemma WordInside(a: seq<byte>, b: seq<byte>, c: seq<byte>)
    requires |b| == 2
    ensures Word(a + b + c, |a|) == Word(b, 0)
  {
  }

  lemma FrameSays(h: handle, boundary: nat, broadcast: nat, chunk: seq<byte>)
    requires boundary < 4 && broadcast < 4 && |chunk| < 0x1_0000
    ensures
      var p := Frame(h, boundary, broadcast, chunk);
      && HandleOf(p) == h && BoundaryOf(p) == boundary && LengthOf(p) == |chunk|
      && p[ACL_HEADER..] == chunk
  {
    var word := h + 0x1000 * boundary + 0x4000 * broadcast;
    var first, second := LittleEndian(word, 2), LittleEndian(|chunk|, 2);
    hide LittleEndian;
    WordOfLittleEndian(word);
    WordOfLittleEndian(|chunk|);
    var p := Frame(h, boundary, broadcast, chunk);
    assert p == [] + first + (second + chunk);
    WordInside([], first, second + chunk);
    assert p == first + second + chunk;
    WordInside(first, second, chunk);
  }

  /** The bytes of a frame (section 5.4.2 of Vol 4 Part E): 12 bits of handle, 2 of the packet boundary, 2 of the
      broadcast flag, and the length. */
  lemma FrameBytes(h: handle, boundary: nat, broadcast: nat, chunk: seq<byte>)
    requires boundary < 4 && broadcast < 4 && |chunk| < 0x1_0000
    ensures
      Frame(h, boundary, broadcast, chunk) ==
        [h % 0x100, h / 0x100 + 0x10 * boundary + 0x40 * broadcast, |chunk| % 0x100, |chunk| / 0x100] + chunk
  {
    var word := h + 0x1000 * boundary + 0x4000 * broadcast;
    TwoBytes(word);
    TwoBytes(|chunk|);
    hide LittleEndian;
    assert word / 0x100 == h / 0x100 + 0x10 * boundary + 0x40 * broadcast && word % 0x100 == h % 0x100;
  }

  lemma TwoBytes(v: u16)
    ensures LittleEndian(v, 2) == [v % 0x100, v / 0x100]
  {
    assert LittleEndian(v, 2) == [v % 256] + ([v / 256 % 256] + LittleEndian(v / 256 / 256, 0));
  }

  // ----- receiving -----

  /** The packets of an unfinished message, how many payload bytes their headers announced, and the size
      the message shall have. */
  datatype Rx = Rx(pending: seq<seq<byte>>, got: u16, expected: u16)

  predicate Packets(stream: seq<seq<byte>>) {
    forall i :: 0 <= i < |stream| ==> IsPacket(stream[i])
  }

  /** A packet that starts a message holds the whole L2CAP header: the receiver reads it in place. */
  predicate IsPacket(p: seq<byte>) {
    |p| >= ACL_HEADER && (BoundaryOf(p) != CONTINUATION ==> |p| >= ACL_HEADER + L2CAP_HEADER)
  }

  /** The size the message shall have, from its L2CAP header; -1 when there is no such channel or the
      message is too long for it. */
  function Check(limits: map<u16, u16>, payload: seq<byte>): int
    requires |payload| >= L2CAP_HEADER
  {
    var total, channel := Word(payload, 0), Word(payload, 2);
    var ok :=
      if channel == SIGNALLING then total <= MTU_DEFAULT
      else channel in limits && total <= limits[channel];
    if ok then total + L2CAP_HEADER else -1
  }

  predicate Headed(s: Rx) {
    HaveHeaders(s.pending, ACL_HEADER)
  }

  /** Adds a packet to the message it belongs to, and hands the message over once it is complete. */
  function Gather(s: Rx, p: seq<byte>): (r: (Rx, seq<seq<byte>>))
    requires Headed(s) && |p| >= ACL_HEADER
    ensures Headed(r.0) && r.0.expected == s.expected
  {
    if LengthOf(p) >= (s.expected - s.got) % 0x1_0000 then
      (Rx([], 0, s.expected), [Flat(s.pending + [p], ACL_HEADER)])
    else
      (Rx(s.pending + [p], (s.got + LengthOf(p)) % 0x1_0000, s.expected), [])
  }

  /** What one packet does to a connection, and the messages handed over because of it. */
  function Receive(limits: map<u16, u16>, s: Rx, p: seq<byte>): (r: (Rx, seq<seq<byte>>))
    requires Headed(s) && IsPacket(p)
    ensures Headed(r.0)
  {
    if BoundaryOf(p) == CONTINUATION then
      if s.expected == INVALID then (s, []) else Gather(s, p)
    else
      var flushed := if s.pending != [] then [Flat(s.pending, ACL_HEADER)] else [];
      var idle := if s.pending != [] then Rx([], 0, s.expected) else s;
      var rc := Check(limits, p[ACL_HEADER..]);
      if rc < 0 then (idle.(expected := INVALID), flushed)
      else
        var r := Gather(idle.(expected := rc % 0x1_0000), p);
        (r.0, flushed + r.1)
  }

  function Run(limits: map<u16, u16>, s: Rx, stream: seq<seq<byte>>): (r: (Rx, seq<seq<byte>>))
    requires Headed(s) && Packets(stream)
    ensures Headed(r.0)
    decreases |stream|
  {
    if stream == [] then (s, [])
    else
      assert IsPacket(stream[0]);
      var one := Receive(limits, s, stream[0]);
      var rest := Run(limits, one.0, stream[1..]);
      (rest.0, one.1 + rest.1)
  }

  lemma {:induction false} RunConcat(limits: map<u16, u16>, s: Rx, a: seq<seq<byte>>, b: seq<seq<byte>>)
    requires Headed(s) && Packets(a) && Packets(b)
    ensures Packets(a + b)
    ensures
      var first := Run(limits, s, a);
      var second := Run(limits, first.0, b);
      Run(limits, s, a + b) == (second.0, first.1 + second.1)
    decreases |a|
  {
    hide Receive;
    if a == [] {
      assert a + b == b;
      assert [] + Run(limits, s, b).1 == Run(limits, s, b).1;
    } else {
      assert (a + b)[1..] == a[1..] + b;
      assert IsPacket(a[0]);
      var one := Receive(limits, s, a[0]);
      RunConcat(limits, one.0, a[1..], b);
      var first := Run(limits, one.0, a[1..]);
      assert one.1 + (first.1 + Run(limits, first.0, b).1) == one.1 + first.1 + Run(limits, first.0, b).1;
    }
  }

  // ----- any stream at all -----

  function Announced(packets: seq<seq<byte>>): nat
    requires HaveHeaders(packets, ACL_HEADER)
  {
    if packets == [] then 0 else Announced(packets[..|packets| - 1]) + LengthOf(packets[|packets| - 1])
  }

  /** Nothing is pending, or less has been announced than expected, and the sum never wrapped. */
  ghost predicate Below(s: Rx) {
    && Headed(s)
    && s.got == Announced(s.pending)
    && (s.pending != [] ==> s.got < s.expected)
  }

  lemma GatherStaysBelow(s: Rx, p: seq<byte>)
    requires Below(s) && |p| >= ACL_HEADER
    ensures Below(Gather(s, p).0)
  {
    var more := s.pending + [p];
    assert more[..|more| - 1] == s.pending;
    assert s.pending == [] ==> Announced(s.pending) == 0;
  }

  /** Whatever arrives, the bytes gathered stay below the size expected, so the 16-bit remainder
      never wraps round. */
  lemma {:induction false} StaysBelow(limits: map<u16, u16>, s: Rx, stream: seq<seq<byte>>)
    requires Below(s) && Packets(stream)
    ensures Below(Run(limits, s, stream).0)
    decreases |stream|
  {
    if stream == [] {
    } else {
      var p := stream[0];
      assert IsPacket(p);
      ReceiveStaysBelow(limits, s, p);
      StaysBelow(limits, Receive(limits, s, p).0, stream[1..]);
    }
  }

  lemma ReceiveStaysBelow(limits: map<u16, u16>, s: Rx, p: seq<byte>)
    requires Below(s) && IsPacket(p)
    ensures Below(Receive(limits, s, p).0)
    ensures Receive(limits, s, p).0.got <= Receive(limits, s, p).0.expected
  {
    if BoundaryOf(p) == CONTINUATION {
      if s.expected != INVALID {
        GatherStaysBelow(s, p);
      }
    } else {
      var idle := if s.pending != [] then Rx([], 0, s.expected) else s;
      var rc := Check(limits, p[ACL_HEADER..]);
      if rc >= 0 {
        GatherStaysBelow(idle.(expected := rc % 0x1_0000), p);
      }
    }
  }

  /** After a refused first packet nothing is handed over until the next packet that starts a message. */
  lemma {:induction false} RefusedMessageGoesBy(limits: map<u16, u16>, s: Rx, stream: seq<seq<byte>>)
    requires Headed(s) && Packets(stream) && s.expected == INVALID
    requires forall i :: 0 <= i < |stream| ==> BoundaryOf(stream[i]) == CONTINUATION
    ensures Run(limits, s, stream) == (s, [])
    decreases |stream|
  {
    if stream == [] {
    } else {
      assert IsPacket(stream[0]);
      RefusedMessageGoesBy(limits, s, stream[1..]);
      assert [] + Run(limits, s, stream[1..]).1 == [];
    }
  }

  // ----- whole messages -----

  /** A message whose L2CAP header states its own length. */
  predicate Framed(payload: seq<byte>) {
    |payload| >= L2CAP_HEADER && Word(payload, 0) + L2CAP_HEADER == |payload|
  }

  /** A message on the wire (section 3.1 of Vol 3 Part A of the Bluetooth Core specification): length and channel,
      the low byte first, and the body. */
  function Packed(channel: u16, body: seq<byte>): (payload: seq<byte>)
    requires |body| < 0x1_0000
    ensures |payload| == L2CAP_HEADER + |body|
  {
    [|body| % 0x100, |body| / 0x100, channel % 0x100, channel / 0x100] + body
  }

  /** Whether a connection takes a body of n bytes: the signalling channel takes up to 672, an open channel up to its
      own limit, and any other channel nothing. */
  predicate Wanted(limits: map<u16, u16>, channel: u16, n: nat) {
    if channel == 1 then n <= 672 else channel in limits && n <= limits[channel]
  }

  lemma PackedSays(limits: map<u16, u16>, channel: u16, body: seq<byte>)
    requires |body| < 0x1_0000
    ensures Framed(Packed(channel, body))
    ensures Check(limits, Packed(channel, body)) ==
      if Wanted(limits, channel, |body|) then |Packed(channel, body)| else -1
  {
  }

  function Flushed(s: Rx): seq<seq<byte>>
    requires Headed(s)
  {
    if s.pending != [] then [Flat(s.pending, ACL_HEADER)] else []
  }

  lemma {:induction false} FlatSnoc(packets: seq<seq<byte>>, p: seq<byte>)
    requires HaveHeaders(packets, ACL_HEADER) && |p| >= ACL_HEADER
    ensures Flat(packets + [p], ACL_HEADER) == Flat(packets, ACL_HEADER) + p[ACL_HEADER..]
  {
    if packets == [] {
      assert packets + [p] == [p];
      assert Flat([p][1..], ACL_HEADER) == [];
    } else {
      FlatSnoc(packets[1..], p);
      assert (packets + [p])[1..] == packets[1..] + [p];
      var a, b, c := packets[0][ACL_HEADER..], Flat(packets[1..], ACL_HEADER), p[ACL_HEADER..];
      assert a + (b + c) == (a + b) + c;
    }
  }

  lemma {:induction false} FramesAreContinuations(h: handle, broadcast: nat, rest: seq<byte>, cap: u16)
    requires broadcast < 4 && cap > 0
    ensures
      var frames := Frames(h, CONTINUATION, broadcast, rest, cap);
      && Packets(frames)
      && forall i :: 0 <= i < |frames| ==> BoundaryOf(frames[i]) == CONTINUATION && HandleOf(frames[i]) == h
    decreases |rest|
  {
    hide Frame, BoundaryOf, HandleOf, LengthOf;
    if rest != [] {
      if |rest| <= cap {
        FrameSays(h, CONTINUATION, broadcast, rest);
      } else {
        FrameSays(h, CONTINUATION, broadcast, rest[..cap]);
        FramesAreContinuations(h, broadcast, rest[cap..], cap);
      }
    }
  }

  lemma OnePacketRun(limits: map<u16, u16>, s: Rx, p: seq<byte>)
    requires Headed(s) && IsPacket(p)
    ensures Run(limits, s, [p]) == Receive(limits, s, p)
  {
    hide Receive;
    var one := Receive(limits, s, p);
    assert Run(limits, one.0, [p][1..]) == (one.0, []);
    assert one.1 + [] == one.1;
  }

  lemma RunStep(limits: map<u16, u16>, s: Rx, p: seq<byte>, rest: seq<seq<byte>>)
    requires Headed(s) && IsPacket(p) && Packets(rest)
    ensures Packets([p] + rest)
    ensures
      var one := Receive(limits, s, p);
      var more := Run(limits, one.0, rest);
      Run(limits, s, [p] + rest) == (more.0, one.1 + more.1)
  {
    hide Receive;
    OnePacketRun(limits, s, p);
    assert Packets([p]);
    RunConcat(limits, s, [p], rest);
  }

  /** A continuation packet that brings no more than is missing. */
  lemma MoreArrives(limits: map<u16, u16>, s: Rx, p: seq<byte>)
    requires Headed(s) && IsPacket(p) && BoundaryOf(p) == CONTINUATION
    requires s.expected != INVALID && s.got + LengthOf(p) <= s.expected
    ensures Receive(limits, s, p) ==
            if s.got + LengthOf(p) == s.expected
            then (Rx([], 0, s.expected), [Flat(s.pending, ACL_HEADER) + p[ACL_HEADER..]])
            else (Rx(s.pending + [p], s.got + LengthOf(p), s.expected), [])
  {
    FlatSnoc(s.pending, p);
  }

  lemma RestStep(limits: map<u16, u16>, s: Rx, p: seq<byte>, chunk: seq<byte>, later: seq<byte>, frames: seq<seq<byte>>)
    requires Headed(s) && IsPacket(p) && BoundaryOf(p) == CONTINUATION && p[ACL_HEADER..] == chunk
    requires LengthOf(p) == |chunk| && later != []
    requires s.expected != INVALID && s.got + |chunk| + |later| == s.expected
    requires Packets(frames)
    requires Run(limits, Rx(s.pending + [p], s.got + |chunk|, s.expected), frames)
          == (Rx([], 0, s.expected), [Flat(s.pending + [p], ACL_HEADER) + later])
    ensures Packets([p] + frames)
    ensures Run(limits, s, [p] + frames) == (Rx([], 0, s.expected), [Flat(s.pending, ACL_HEADER) + (chunk + later)])
  {
    hide BoundaryOf, LengthOf, Flat, Receive, Run;
    MoreArrives(limits, s, p);
    RunStep(limits, s, p, frames);
    FlatSnoc(s.pending, p);
    var before := Flat(s.pending, ACL_HEADER);
    assert before + chunk + later == before + (chunk + later);
    assert [] + [before + (chunk + later)] == [before + (chunk + later)];
  }

  lemma LastArrives(limits: map<u16, u16>, s: Rx, h: handle, broadcast: nat, rest: seq<byte>, cap: u16)
    requires broadcast < 4 && 0 < |rest| <= cap
    requires Headed(s) && s.expected != INVALID && s.got + |rest| == s.expected
    ensures Packets(Frames(h, CONTINUATION, broadcast, rest, cap))
    ensures Run(limits, s, Frames(h, CONTINUATION, broadcast, rest, cap))
         == (Rx([], 0, s.expected), [Flat(s.pending, ACL_HEADER) + rest])
  {
    hide Frame, Frames, BoundaryOf, LengthOf, HandleOf, Flat, Receive, Run;
    var p := Frame(h, CONTINUATION, broadcast, rest);
    FramesOfShort(h, CONTINUATION, broadcast, rest, cap);
    FrameSays(h, CONTINUATION, broadcast, rest);
    MoreArrives(limits, s, p);
    OnePacketRun(limits, s, p);
  }

  /** The rest of a message completes it. */
  lemma {:induction false} RestArrives(limits: map<u16, u16>, s: Rx, h: handle, broadcast: nat, rest: seq<byte>,
                                       cap: u16)
    requires broadcast < 4 && cap > 0 && rest != []
    requires Headed(s) && s.expected != INVALID && s.got + |rest| == s.expected
    ensures Packets(Frames(h, CONTINUATION, broadcast, rest, cap))
    ensures Run(limits, s, Frames(h, CONTINUATION, broadcast, rest, cap))
         == (Rx([], 0, s.expected), [Flat(s.pending, ACL_HEADER) + rest])
    decreases |rest|
  {
    hide Frame, Frames, BoundaryOf, LengthOf, HandleOf, Flat, Receive, Run, Packets;
    if |rest| <= cap {
      LastArrives(limits, s, h, broadcast, rest, cap);
    } else {
      var chunk, later := rest[..cap], rest[cap..];
      var p := Frame(h, CONTINUATION, broadcast, chunk);
      FramesOfLong(h, CONTINUATION, broadcast, rest, cap);
      FrameSays(h, CONTINUATION, broadcast, chunk);
      RestArrives(limits, Rx(s.pending + [p], s.got + cap, s.expected), h, broadcast, later, cap);
      RestStep(limits, s, p, chunk, later, Frames(h, CONTINUATION, broadcast, later, cap));
      assert chunk + later == rest;
    }
  }

  lemma FramesOfShort(h: handle, boundary: nat, broadcast: nat, payload: seq<byte>, cap: u16)
    requires boundary < 4 && broadcast < 4 && 0 < |payload| <= cap
    ensures Frames(h, boundary, broadcast, payload, cap) == [Frame(h, boundary, broadcast, payload)]
  {
  }

  lemma FramesOfLong(h: handle, boundary: nat, broadcast: nat, payload: seq<byte>, cap: u16)
    requires boundary < 4 && broadcast < 4 && 0 < cap < |payload|
    ensures Frames(h, boundary, broadcast, payload, cap)
         == [Frame(h, boundary, broadcast, payload[..cap])] + Frames(h, CONTINUATION, broadcast, payload[cap..], cap)
  {
  }

  /** The first bytes of a message decide, and the first packet holds them. */
  lemma CheckFirstBytes(limits: map<u16, u16>, payload: seq<byte>, n: nat)
    requires L2CAP_HEADER <= n <= |payload|
    ensures Check(limits, payload[..n]) == Check(limits, payload)
  {
  }

  lemma FlatOfOne(p: seq<byte>)
    requires |p| >= ACL_HEADER
    ensures Flat([p], ACL_HEADER) == p[ACL_HEADER..]
  {
    assert Flat([p][1..], ACL_HEADER) == [];
  }

  /** What the first packet of a well-formed message does. */
  lemma FirstArrives(limits: map<u16, u16>, s: Rx, p: seq<byte>, rc: int)
    requires Below(s) && IsPacket(p) && BoundaryOf(p) != CONTINUATION && rc == Check(limits, p[ACL_HEADER..])
    ensures Receive(limits, s, p) ==
            if rc < 0 then (Rx([], 0, INVALID), Flushed(s))
            else if LengthOf(p) >= rc % 0x1_0000 then (Rx([], 0, rc % 0x1_0000), Flushed(s) + [p[ACL_HEADER..]])
            else (Rx([p], LengthOf(p), rc % 0x1_0000), Flushed(s))
  {
    assert s.pending == [] ==> s.got == 0;
    hide Check, BoundaryOf, LengthOf, Flat, Announced;
    assert [] + [p] == [p];
    FlatOfOne(p);
    assert Flushed(s) + [] == Flushed(s);
  }

  /** Exactly these well-formed messages arrive whole. The others are as long as the value that marks
      a refused message, or longer than 16 bits can say, and take more than one packet. */
  predicate Fits(payload: seq<byte>, cap: u16) {
    |payload| <= cap || |payload| < INVALID
  }

  lemma MessageFrames(h: handle, broadcast: nat, payload: seq<byte>, cap: u16)
    requires broadcast < 4 && cap >= L2CAP_HEADER && |payload| >= L2CAP_HEADER
    ensures Packets(Frames(h, FIRST_FLUSH, broadcast, payload, cap))
    ensures forall i :: 0 <= i < |Frames(h, FIRST_FLUSH, broadcast, payload, cap)| ==>
              HandleOf(Frames(h, FIRST_FLUSH, broadcast, payload, cap)[i]) == h
  {
    hide Frame, BoundaryOf, HandleOf, LengthOf, Word;
    if |payload| <= cap {
      FramesOfShort(h, FIRST_FLUSH, broadcast, payload, cap);
      FrameSays(h, FIRST_FLUSH, broadcast, payload);
    } else {
      FramesOfLong(h, FIRST_FLUSH, broadcast, payload, cap);
      FrameSays(h, FIRST_FLUSH, broadcast, payload[..cap]);
      FramesAreContinuations(h, broadcast, payload[cap..], cap);
    }
  }

  /** A message for a channel that wants it arrives whole, after whatever was still pending; any other leaves no
      trace. */
  lemma MessageArrives(limits: map<u16, u16>, s: Rx, h: handle, broadcast: nat, channel: u16, body: seq<byte>, cap: u16)
    requires broadcast < 4 && cap >= L2CAP_HEADER && |body| < 0x1_0000 && Below(s)
    requires Fits(Packed(channel, body), cap) || !Wanted(limits, channel, |body|)
    ensures Packets(Frames(h, FIRST_FLUSH, broadcast, Packed(channel, body), cap))
    ensures Run(limits, s, Frames(h, FIRST_FLUSH, broadcast, Packed(channel, body), cap)) ==
            if Wanted(limits, channel, |body|) then
              (Rx([], 0, L2CAP_HEADER + |body|), Flushed(s) + [Packed(channel, body)])
            else (Rx([], 0, INVALID), Flushed(s))
  {
    hide Frames, Run, Packets, Flushed, Below, Check, Wanted, Framed;
    PackedSays(limits, channel, body);
    PayloadArrives(limits, s, h, broadcast, Packed(channel, body), cap);
  }

  /** The same for any payload, in terms of the receiver's own test. */
  lemma PayloadArrives(limits: map<u16, u16>, s: Rx, h: handle, broadcast: nat, payload: seq<byte>, cap: u16)
    requires broadcast < 4 && cap >= L2CAP_HEADER && Framed(payload)
    requires Below(s) && (Fits(payload, cap) || Check(limits, payload) < 0)
    ensures Packets(Frames(h, FIRST_FLUSH, broadcast, payload, cap))
    ensures Run(limits, s, Frames(h, FIRST_FLUSH, broadcast, payload, cap)) ==
            if Check(limits, payload) < 0 then (Rx([], 0, INVALID), Flushed(s))
            else (Rx([], 0, |payload|), Flushed(s) + [payload])
  {
    if |payload| <= cap {
      ShortMessageArrives(limits, s, h, broadcast, payload, cap);
    } else {
      LongMessageArrives(limits, s, h, broadcast, payload, cap);
    }
  }

  lemma ShortMessageArrives(limits: map<u16, u16>, s: Rx, h: handle, broadcast: nat, payload: seq<byte>, cap: u16)
    requires broadcast < 4 && cap >= L2CAP_HEADER && Framed(payload) && |payload| <= cap && Below(s)
    ensures Packets(Frames(h, FIRST_FLUSH, broadcast, payload, cap))
    ensures Run(limits, s, Frames(h, FIRST_FLUSH, broadcast, payload, cap)) ==
            if Check(limits, payload) < 0 then (Rx([], 0, INVALID), Flushed(s))
            else (Rx([], 0, |payload|), Flushed(s) + [payload])
  {
    hide Frame, Frames, BoundaryOf, LengthOf, HandleOf, Flat, Receive, Run;
    var p := Frame(h, FIRST_FLUSH, broadcast, payload);
    FramesOfShort(h, FIRST_FLUSH, broadcast, payload, cap);
    FrameSays(h, FIRST_FLUSH, broadcast, payload);
    FirstArrives(limits, s, p, Check(limits, payload));
    OnePacketRun(limits, s, p);
  }

  lemma LongMessageArrives(limits: map<u16, u16>, s: Rx, h: handle, broadcast: nat, payload: seq<byte>, cap: u16)
    requires broadcast < 4 && L2CAP_HEADER <= cap < |payload| && Framed(payload) && Below(s)
    requires |payload| < INVALID || Check(limits, payload) < 0
    ensures Packets(Frames(h, FIRST_FLUSH, broadcast, payload, cap))
    ensures Run(limits, s, Frames(h, FIRST_FLUSH, broadcast, payload, cap)) ==
            if Check(limits, payload) < 0 then (Rx([], 0, INVALID), Flushed(s))
            else (Rx([], 0, |payload|), Flushed(s) + [payload])
  {
    if Check(limits, payload) < 0 {
      RefusedMessageLeavesNothing(limits, s, h, broadcast, payload, cap);
    } else {
      LongMessageArrivesWhole(limits, s, h, broadcast, payload, cap);
    }
  }

  lemma CheckOfFramed(limits: map<u16, u16>, payload: seq<byte>)
    requires Framed(payload) && Check(limits, payload) >= 0
    ensures Check(limits, payload) == |payload|
  {
  }

  lemma LongMessageArrivesWhole(limits: map<u16, u16>, s: Rx, h: handle, broadcast: nat, payload: seq<byte>, cap: u16)
    requires broadcast < 4 && L2CAP_HEADER <= cap < |payload| && Framed(payload) && Below(s)
    requires |payload| < INVALID && Check(limits, payload) >= 0
    ensures Packets(Frames(h, FIRST_FLUSH, broadcast, payload, cap))
    ensures Run(limits, s, Frames(h, FIRST_FLUSH, broadcast, payload, cap)) ==
      (Rx([], 0, |payload|), Flushed(s) + [payload])
  {
    assert Headed(s);
    CheckOfFramed(limits, payload);
    hide Frame, Frames, BoundaryOf, LengthOf, HandleOf, Flat, Receive, Run, Packets, Below, Check, Framed, Flushed;
    var chunk, rest := payload[..cap], payload[cap..];
    var p, frames := Frame(h, FIRST_FLUSH, broadcast, chunk), Frames(h, CONTINUATION, broadcast, rest, cap);
    FramesOfLong(h, FIRST_FLUSH, broadcast, payload, cap);
    FrameSays(h, FIRST_FLUSH, broadcast, chunk);
    CheckFirstBytes(limits, payload, cap);
    RestArrives(limits, Rx([p], cap, |payload|), h, broadcast, rest, cap);
    FirstThenRest(limits, s, p, rest, frames);
    assert chunk + rest == payload;
  }

  lemma FirstThenRest(limits: map<u16, u16>, s: Rx, p: seq<byte>, rest: seq<byte>, frames: seq<seq<byte>>)
    requires Below(s) && IsPacket(p) && BoundaryOf(p) != CONTINUATION && Packets(frames) && rest != []
    requires
      var chunk := p[ACL_HEADER..];
      var total := |chunk| + |rest|;
      && total < INVALID && LengthOf(p) == |chunk| && Check(limits, chunk) == total
      && Run(limits, Rx([p], |chunk|, total), frames) == (Rx([], 0, total), [Flat([p], ACL_HEADER) + rest])
    ensures Packets([p] + frames)
    ensures Run(limits, s, [p] + frames)
         == (Rx([], 0, |p[ACL_HEADER..]| + |rest|), Flushed(s) + [p[ACL_HEADER..] + rest])
  {
    assert Headed(s) && |p| >= ACL_HEADER && |p[ACL_HEADER..]| + |rest| < 0x1_0000;
    FirstOfMany(limits, s, p, |p[ACL_HEADER..]| + |rest|);
    hide *;
    FlatOfOne(p);
    RunStep(limits, s, p, frames);
  }

  lemma FirstOfMany(limits: map<u16, u16>, s: Rx, p: seq<byte>, total: u16)
    requires Below(s) && IsPacket(p) && BoundaryOf(p) != CONTINUATION && Check(limits, p[ACL_HEADER..]) == total
    requires LengthOf(p) < total
    ensures Receive(limits, s, p) == (Rx([p], LengthOf(p), total), Flushed(s))
  {
    hide Receive, Check, BoundaryOf, LengthOf, Below, IsPacket, Flushed;
    FirstArrives(limits, s, p, total);
  }

  lemma RefusedMessageLeavesNothing(limits: map<u16, u16>, s: Rx, h: handle, broadcast: nat, payload: seq<byte>,
                                    cap: u16)
    requires broadcast < 4 && L2CAP_HEADER <= cap < |payload| && Framed(payload) && Below(s)
    requires Check(limits, payload) < 0
    ensures Packets(Frames(h, FIRST_FLUSH, broadcast, payload, cap))
    ensures Run(limits, s, Frames(h, FIRST_FLUSH, broadcast, payload, cap)) == (Rx([], 0, INVALID), Flushed(s))
  {
    assert Headed(s);
    hide Frame, Frames, BoundaryOf, LengthOf, HandleOf, Flat, Receive, Run, Packets, Below;
    var chunk, rest := payload[..cap], payload[cap..];
    var p, frames := Frame(h, FIRST_FLUSH, broadcast, chunk), Frames(h, CONTINUATION, broadcast, rest, cap);
    FramesOfLong(h, FIRST_FLUSH, broadcast, payload, cap);
    FrameSays(h, FIRST_FLUSH, broadcast, chunk);
    CheckFirstBytes(limits, payload, cap);
    FirstArrives(limits, s, p, Check(limits, payload));
    FramesAreContinuations(h, broadcast, rest, cap);
    RunStep(limits, s, p, frames);
    RefusedMessageGoesBy(limits, Rx([], 0, INVALID), frames);
    assert Flushed(s) + [] == Flushed(s);
  }

  /** A message that its channel wants but that is outside those sizes does not arrive whole: after what was pending,
      either nothing is handed over, or its first packet alone is. */
  lemma OversizeDoesNotArrive(limits: map<u16, u16>, s: Rx, h: handle, broadcast: nat, channel: u16, body: seq<byte>,
                              cap: u16)
    requires broadcast < 4 && cap >= L2CAP_HEADER && |body| < 0x1_0000 && Below(s)
    requires !Fits(Packed(channel, body), cap) && Wanted(limits, channel, |body|)
    ensures Packets(Frames(h, FIRST_FLUSH, broadcast, Packed(channel, body), cap))
    ensures
      var payload := Packed(channel, body);
      var out := Run(limits, s, Frames(h, FIRST_FLUSH, broadcast, payload, cap)).1;
      if |payload| == INVALID then out == Flushed(s) else Flushed(s) + [payload[..cap]] <= out
  {
    hide Frames, Run, Packets, Flushed, Below, Check, Wanted, Framed;
    PackedSays(limits, channel, body);
    OversizePayload(limits, s, h, broadcast, Packed(channel, body), cap);
  }

  lemma OversizePayload(limits: map<u16, u16>, s: Rx, h: handle, broadcast: nat, payload: seq<byte>, cap: u16)
    requires broadcast < 4 && cap >= L2CAP_HEADER && Framed(payload) && Below(s)
    requires !Fits(payload, cap) && Check(limits, payload) >= 0
    ensures Packets(Frames(h, FIRST_FLUSH, broadcast, payload, cap))
    ensures
      var out := Run(limits, s, Frames(h, FIRST_FLUSH, broadcast, payload, cap)).1;
      if |payload| == INVALID then out == Flushed(s) else Flushed(s) + [payload[..cap]] <= out
  {
    assert Headed(s);
    CheckOfFramed(limits, payload);
    CheckIsBounded(limits, payload);
    hide Frame, Frames, BoundaryOf, LengthOf, HandleOf, Flat, Receive, Run, Packets, Flushed, Below, Check, IsPacket;
    var chunk, rest := payload[..cap], payload[cap..];
    var p, frames := Frame(h, FIRST_FLUSH, broadcast, chunk), Frames(h, CONTINUATION, broadcast, rest, cap);
    FramesOfLong(h, FIRST_FLUSH, broadcast, payload, cap);
    FirstFrame(h, broadcast, chunk);
    CheckFirstBytes(limits, payload, cap);
    FramesAreContinuations(h, broadcast, rest, cap);
    RunStep(limits, s, p, frames);
    if |payload| == INVALID {
      FirstOfMany(limits, s, p, INVALID);
      SentinelStays(limits, s, p, frames);
    } else {
      FirstWraps(limits, s, p, |payload|);
    }
  }

  lemma FirstFrame(h: handle, broadcast: nat, chunk: seq<byte>)
    requires broadcast < 4 && L2CAP_HEADER <= |chunk| < 0x1_0000
    ensures
      var p := Frame(h, FIRST_FLUSH, broadcast, chunk);
      IsPacket(p) && BoundaryOf(p) != CONTINUATION && LengthOf(p) == |chunk| && p[ACL_HEADER..] == chunk
  {
    hide Frame, BoundaryOf, LengthOf, HandleOf;
    FrameSays(h, FIRST_FLUSH, broadcast, chunk);
  }

  lemma CheckIsBounded(limits: map<u16, u16>, payload: seq<byte>)
    requires |payload| >= L2CAP_HEADER
    ensures Check(limits, payload) < 0x1_0000 + L2CAP_HEADER
  {
  }

  /** The expected size of a message of 0xffff bytes is taken for that of a refused one. */
  lemma SentinelStays(limits: map<u16, u16>, s: Rx, p: seq<byte>, frames: seq<seq<byte>>)
    requires Headed(s) && Packets(frames) && |p| >= ACL_HEADER
    requires forall i :: 0 <= i < |frames| ==> BoundaryOf(frames[i]) == CONTINUATION
    ensures Flushed(s) + Run(limits, Rx([p], LengthOf(p), INVALID), frames).1 == Flushed(s)
  {
    hide BoundaryOf, LengthOf, Flushed, Run, Packets;
    RefusedMessageGoesBy(limits, Rx([p], LengthOf(p), INVALID), frames);
  }

  /** A size beyond 16 bits wraps round to less than the first packet brings. */
  lemma FirstWraps(limits: map<u16, u16>, s: Rx, p: seq<byte>, total: nat)
    requires Below(s) && IsPacket(p) && BoundaryOf(p) != CONTINUATION && Check(limits, p[ACL_HEADER..]) == total
    requires 0x1_0000 <= total < 0x1_0000 + L2CAP_HEADER <= 0x1_0000 + LengthOf(p)
    ensures Receive(limits, s, p) == (Rx([], 0, total - 0x1_0000), Flushed(s) + [p[ACL_HEADER..]])
  {
    hide Receive, Check, BoundaryOf, LengthOf, Below, IsPacket, Flushed;
    FirstArrives(limits, s, p, total);
  }

  /** Whatever was pending, a message arrives whole behind it if and only if its channel wants it and it fits. */
  lemma ArrivesExactlyWhenItFits(limits: map<u16, u16>, s: Rx, h: handle, broadcast: nat, channel: u16, body: seq<byte>,
                                 cap: u16)
    requires broadcast < 4 && cap >= L2CAP_HEADER && |body| < 0x1_0000 && Below(s)
    ensures Packets(Frames(h, FIRST_FLUSH, broadcast, Packed(channel, body), cap))
    ensures
      var payload := Packed(channel, body);
      Run(limits, s, Frames(h, FIRST_FLUSH, broadcast, payload, cap)).1 == Flushed(s) + [payload] <==>
        Wanted(limits, channel, |body|) && Fits(payload, cap)
  {
    hide Frames, Run, Packets, Packed, Flushed, Wanted, Fits;
    var payload := Packed(channel, body);
    if Fits(payload, cap) || !Wanted(limits, channel, |body|) {
      MessageArrives(limits, s, h, broadcast, channel, body, cap);
      assert |Flushed(s) + [payload]| != |Flushed(s)|;
    } else {
      OversizeDoesNotArrive(limits, s, h, broadcast, channel, body, cap);
      CutIsShorter(payload, cap);
      assert (Flushed(s) + [payload[..cap]])[|Flushed(s)|] != (Flushed(s) + [payload])[|Flushed(s)|];
    }
  }

  lemma CutIsShorter(payload: seq<byte>, cap: u16)
    requires !Fits(payload, cap)
    ensures cap < |payload| && payload[..cap] != payload
  {
  }

  // ----- many messages on many connections -----

  /** A body for a channel, and how it is cut. */
  datatype Message = Message(channel: u16, body: seq<byte>, broadcast: nat, cap: u16)

  /** All messages but those that are wanted and do not fit. */
  predicate Sendable(limits: map<u16, u16>, m: Message) {
    && m.broadcast < 4 && m.cap >= L2CAP_HEADER && |m.body| < 0x1_0000
    && (Fits(Packed(m.channel, m.body), m.cap) || !Wanted(limits, m.channel, |m.body|))
  }

  function FramesOf(h: handle, m: Message): seq<seq<byte>>
    requires m.broadcast < 4 && m.cap >= L2CAP_HEADER && |m.body| < 0x1_0000
  {
    Frames(h, FIRST_FLUSH, m.broadcast, Packed(m.channel, m.body), m.cap)
  }

  predicate AllSendable(limits: map<u16, u16>, messages: seq<Message>) {
    forall i :: 0 <= i < |messages| ==> Sendable(limits, messages[i])
  }

  function AllFrames(limits: map<u16, u16>, h: handle, messages: seq<Message>): seq<seq<byte>>
    requires AllSendable(limits, messages)
  {
    if messages == [] then []
    else
      assert Sendable(limits, messages[0]);
      FramesOf(h, messages[0]) + AllFrames(limits, h, messages[1..])
  }

  function Accepted(limits: map<u16, u16>, messages: seq<Message>): seq<seq<byte>>
    requires AllSendable(limits, messages)
  {
    if messages == [] then []
    else
      assert Sendable(limits, messages[0]);
      var m := messages[0];
      var here := if Wanted(limits, m.channel, |m.body|) then [Packed(m.channel, m.body)] else [];
      here + Accepted(limits, messages[1..])
  }

  lemma {:induction false} MessagesArrive(limits: map<u16, u16>, s: Rx, h: handle, messages: seq<Message>)
    requires s.pending == [] && s.got == 0 && AllSendable(limits, messages)
    ensures Packets(AllFrames(limits, h, messages))
    ensures Run(limits, s, AllFrames(limits, h, messages)).0.pending == []
    ensures Run(limits, s, AllFrames(limits, h, messages)).1 == Accepted(limits, messages)
    decreases |messages|
  {
    hide Frames, Receive, Run, Packets, Packed, Wanted, Flat;
    if messages == [] {
      NothingArrives(limits, s);
    } else {
      var m := messages[0];
      assert Sendable(limits, m);
      var frames := FramesOf(h, m);
      assert Below(s);
      MessageArrives(limits, s, h, m.broadcast, m.channel, m.body, m.cap);
      var next := Run(limits, s, frames).0;
      MessagesArrive(limits, next, h, messages[1..]);
      RunConcat(limits, s, frames, AllFrames(limits, h, messages[1..]));
      assert Flushed(s) + [Packed(m.channel, m.body)] == [Packed(m.channel, m.body)];
    }
  }

  lemma NothingArrives(limits: map<u16, u16>, s: Rx)
    requires Headed(s)
    ensures Packets([]) && Run(limits, s, []) == (s, [])
  {
  }

  /** All packets of the stream that belong to one connection. */
  function Of(stream: seq<seq<byte>>, h: handle): (mine: seq<seq<byte>>)
    requires Packets(stream)
    ensures Packets(mine)
  {
    if stream == [] then []
    else
      assert IsPacket(stream[0]);
      assert Packets(stream[1..]);
      (if HandleOf(stream[0]) == h then [stream[0]] else []) + Of(stream[1..], h)
  }

  lemma {:induction false} OfConcat(a: seq<seq<byte>>, b: seq<seq<byte>>, h: handle)
    requires Packets(a) && Packets(b)
    ensures Packets(a + b) && Of(a + b, h) == Of(a, h) + Of(b, h)
    decreases |a|
  {
    hide HandleOf;
    if a == [] {
      assert a + b == b;
      assert [] + Of(b, h) == Of(b, h);
    } else {
      assert (a + b)[1..] == a[1..] + b;
      assert IsPacket(a[0]);
      OfConcat(a[1..], b, h);
    }
  }

  lemma {:induction false} OfOneHandle(stream: seq<seq<byte>>, h: handle, g: handle)
    requires Packets(stream) && forall i :: 0 <= i < |stream| ==> HandleOf(stream[i]) == h
    ensures Of(stream, g) == if g == h then stream else []
    decreases |stream|
  {
    if stream == [] {
    } else {
      assert IsPacket(stream[0]);
      OfOneHandle(stream[1..], h, g);
      assert [stream[0]] + stream[1..] == stream;
    }
  }

  /** The frames of a connection's messages are that connection's packets and nobody else's. */
  lemma {:induction false} FramesAreTheirOwn(limits: map<u16, u16>, h: handle, messages: seq<Message>, g: handle)
    requires AllSendable(limits, messages)
    ensures Packets(AllFrames(limits, h, messages))
    ensures Of(AllFrames(limits, h, messages), g) == if g == h then AllFrames(limits, h, messages) else []
    decreases |messages|
  {
    hide Frames, Of, HandleOf, Packed, Wanted;
    if messages == [] {
      OfNothing(g);
    } else {
      var m := messages[0];
      assert Sendable(limits, m);
      var frames := FramesOf(h, m);
      MessageFrames(h, m.broadcast, Packed(m.channel, m.body), m.cap);
      OfOneHandle(frames, h, g);
      FramesAreTheirOwn(limits, h, messages[1..], g);
      OfConcat(frames, AllFrames(limits, h, messages[1..]), g);
    }
  }

  lemma OfNothing(h: handle)
    ensures Packets([]) && Of([], h) == []
  {
  }

  type Connections = map<handle, Rx>
  type Log = seq<(handle, seq<byte>)>

  ghost predicate AllHeaded(d: Connections) {
    forall h :: h in d ==> Headed(d[h])
  }

  function Tagged(h: handle, out: seq<seq<byte>>): (log: Log)
    ensures |log| == |out| && forall i :: 0 <= i < |out| ==> log[i] == (h, out[i])
  {
    seq(|out|, i requires 0 <= i < |out| => (h, out[i]))
  }

  function HandedTo(log: Log, h: handle): seq<seq<byte>> {
    if log == [] then [] else (if log[0].0 == h then [log[0].1] else []) + HandedTo(log[1..], h)
  }

  /** All connections together: a packet for a handle nobody has is dropped. */
  function RunAll(limits: map<handle, map<u16, u16>>, d: Connections, stream: seq<seq<byte>>): (r: (Connections, Log))
    requires AllHeaded(d) && Packets(stream) && d.Keys <= limits.Keys
    ensures AllHeaded(r.0) && r.0.Keys == d.Keys
    decreases |stream|
  {
    if stream == [] then (d, [])
    else
      assert IsPacket(stream[0]);
      assert Packets(stream[1..]);
      var h := HandleOf(stream[0]);
      if h !in d then RunAll(limits, d, stream[1..])
      else
        var one := Receive(limits[h], d[h], stream[0]);
        var rest := RunAll(limits, d[h := one.0], stream[1..]);
        (rest.0, Tagged(h, one.1) + rest.1)
  }

  lemma {:induction false} HandedToConcat(a: Log, b: Log, h: handle)
    ensures HandedTo(a + b, h) == HandedTo(a, h) + HandedTo(b, h)
  {
    if a == [] {
      assert a + b == b;
      assert [] + HandedTo(b, h) == HandedTo(b, h);
    } else {
      assert (a + b)[1..] == a[1..] + b && (a + b)[0] == a[0];
      HandedToConcat(a[1..], b, h);
      var first := if a[0].0 == h then [a[0].1] else [];
      assert first + (HandedTo(a[1..], h) + HandedTo(b, h)) == first + HandedTo(a[1..], h) + HandedTo(b, h);
    }
  }

  lemma {:induction false} HandedToTagged(g: handle, out: seq<seq<byte>>, h: handle)
    ensures HandedTo(Tagged(g, out), h) == if g == h then out else []
  {
    if out == [] {
    } else {
      HandedToTagged(g, out[1..], h);
      assert Tagged(g, out)[1..] == Tagged(g, out[1..]);
      assert [out[0]] + out[1..] == out;
    }
  }

  /** However the packets of the connections are mixed, each connection sees exactly its own. */
  lemma {:induction false} ConnectionsAreIndependent(limits: map<handle, map<u16, u16>>, d: Connections,
                                                     stream: seq<seq<byte>>, h: handle)
    requires AllHeaded(d) && Packets(stream) && d.Keys <= limits.Keys
    ensures h in d ==>
              var r := RunAll(limits, d, stream);
              (r.0[h], HandedTo(r.1, h)) == Run(limits[h], d[h], Of(stream, h))
    ensures h !in d ==> HandedTo(RunAll(limits, d, stream).1, h) == []
    decreases |stream|
  {
    hide Receive, HandleOf;
    if stream != [] {
      var p, later := stream[0], stream[1..];
      assert IsPacket(p);
      assert Packets(later);
      var g := HandleOf(p);
      assert [] + Of(later, h) == Of(later, h);
      if g !in d {
        ConnectionsAreIndependent(limits, d, later, h);
      } else {
        var one := Receive(limits[g], d[g], p);
        var next := d[g := one.0];
        ConnectionsAreIndependent(limits, next, later, h);
        HandedToTagged(g, one.1, h);
        HandedToConcat(Tagged(g, one.1), RunAll(limits, next, later).1, h);
        if g == h {
          RunStep(limits[h], d[h], p, Of(later, h));
        } else {
          assert [] + HandedTo(RunAll(limits, next, later).1, h) == HandedTo(RunAll(limits, next, later).1, h);
        }
      }
    }
  }

  /** Messages cut into packets and mixed in any way with everybody else's arrive exactly once, in
      order and byte for byte. */
  lemma MixedMessagesArrive(limits: map<handle, map<u16, u16>>, d: Connections, stream: seq<seq<byte>>,
                            h: handle, messages: seq<Message>)
    requires AllHeaded(d) && Packets(stream) && d.Keys <= limits.Keys
    requires h in d && d[h].pending == [] && d[h].got == 0
    requires AllSendable(limits[h], messages) && Of(stream, h) == AllFrames(limits[h], h, messages)
    ensures HandedTo(RunAll(limits, d, stream).1, h) == Accepted(limits[h], messages)
    ensures RunAll(limits, d, stream).0[h].pending == []
  {
    hide Run, RunAll, Receive, Of, Packets, Sendable;
    ConnectionsAreIndependent(limits, d, stream, h);
    MessagesArrive(limits[h], d[h], h, messages);
  }
}
