/** What splitting a configuration over several requests and parsing them again amounts to
    (l2cap.c:347-700). */
module L2capRoundTrip {
  import opened Prelude
  import opened Bytes
  import opened L2capOptions
  import opened L2capParse

  // ----- values -----

  lemma Le16Bytes(v: u16)
    ensures Le16(v) == [v % 256, v / 256]
  {
    assert LittleEndian(v, 2) == [v % 256] + LittleEndian(v / 256, 1);
    assert LittleEndian(v / 256, 1) == [v / 256 % 256] + LittleEndian(v / 256 / 256, 0);
  }

  lemma Le32Bytes(v: u32)
    ensures Le32(v) == [v % 256, v / 256 % 256, v / 0x1_0000 % 256, v / 0x100_0000]
    ensures Word32(Le32(v), 0) == v
  {
    var w1, w2, w3 := v / 256, v / 256 / 256, v / 256 / 256 / 256;
    assert LittleEndian(v, 4) == [v % 256] + LittleEndian(w1, 3);
    assert LittleEndian(w1, 3) == [w1 % 256] + LittleEndian(w2, 2);
    assert LittleEndian(w2, 2) == [w2 % 256] + LittleEndian(w3, 1);
    assert LittleEndian(w3, 1) == [w3 % 256] + LittleEndian(w3 / 256, 0);
  }

  lemma Word32At(s: seq<byte>, at: nat, v: u32)
    requires at + 4 <= |s| && s[at..at + 4] == Le32(v)
    ensures Word32(s, at) == v
  {
    hide Le32;
    Le32Bytes(v);
    var w := s[at..at + 4];
    assert s[at] == w[0] && s[at + 1] == w[1] && s[at + 2] == w[2] && s[at + 3] == w[3];
  }

  /** Where the fields of a quality of service stand. */
  lemma QosFields(q: Qos)
    ensures var s := QosBytes(q);
      |s| == 22 && s[0] == q.flags && s[1] == q.serviceType && s[2..6] == Le32(q.tokenRate) &&
      s[6..10] == Le32(q.tokenBucketSize) && s[10..14] == Le32(q.peakBandwidth) &&
      s[14..18] == Le32(q.accessLatency) && s[18..22] == Le32(q.delayVariation)
  {
    Le32Lengths(q.tokenRate, q.tokenBucketSize, q.peakBandwidth, q.accessLatency, q.delayVariation);
    hide Le32;
  }

  /** Where the fields of a retransmission and flow control option stand. */
  lemma RetxFields(r: RetxFlow)
    ensures
      var s := RetxBytes(r);
      |s| == 9 && s[0] == r.mode && s[1] == r.txWindowSize && s[2] == r.maxTransmit && s[3..5] == Le16(r.retxTimeout) &&
      s[5..7] == Le16(r.monitorTimeout) && s[7..9] == Le16(r.maxPduSize)
  {
    Le16Bytes(r.retxTimeout);
    Le16Bytes(r.monitorTimeout);
    Le16Bytes(r.maxPduSize);
    hide Le16;
  }

  /** Where the fields of an extended flow specification stand. */
  lemma ExtFields(e: ExtFlow)
    ensures
      var s := ExtBytes(e);
      |s| == 16 && s[0] == e.identifier && s[1] == e.serviceType && s[2..4] == Le16(e.maxSduSize) &&
      s[4..8] == Le32(e.sduInterTime) && s[8..12] == Le32(e.accessLatency) && s[12..16] == Le32(e.flushTimeout)
  {
    Le16Bytes(e.maxSduSize);
    Le32Lengths(e.sduInterTime, e.accessLatency, e.flushTimeout, 0, 0);
    hide Le32, Le16;
  }

  lemma Le32Lengths(a: u32, b: u32, c: u32, d: u32, e: u32)
    ensures |Le32(a)| == |Le32(b)| == |Le32(c)| == |Le32(d)| == |Le32(e)| == 4
  {
  }

  lemma StoreQos(p: Params, q: Qos)
    ensures |QosBytes(q)| == PayloadLen(QOS) && Store(p, QOS, QosBytes(q)).qos == Some(q)
  {
    QosFields(q);
    var s := QosBytes(q);
    hide QosBytes, Le32;
    Word32At(s, 2, q.tokenRate);
    Word32At(s, 6, q.tokenBucketSize);
    Word32At(s, 10, q.peakBandwidth);
    Word32At(s, 14, q.accessLatency);
    Word32At(s, 18, q.delayVariation);
  }

  lemma StoreRetx(p: Params, r: RetxFlow)
    ensures |RetxBytes(r)| == PayloadLen(RETX_FLOW) && Store(p, RETX_FLOW, RetxBytes(r)).retxFlow == Some(r)
  {
    Le16Bytes(r.retxTimeout);
    Le16Bytes(r.monitorTimeout);
    Le16Bytes(r.maxPduSize);
    hide Le16;
  }

  lemma StoreExt(p: Params, e: ExtFlow)
    ensures |ExtBytes(e)| == PayloadLen(EXT_FLOW) && Store(p, EXT_FLOW, ExtBytes(e)).extFlow == Some(e)
  {
    Le16Bytes(e.maxSduSize);
    ExtFields(e);
    var s := ExtBytes(e);
    hide Le32, Le16, ExtBytes;
    assert s[2] == s[2..4][0] && s[3] == s[2..4][1];
    Word32At(s, 4, e.sduInterTime);
    Word32At(s, 8, e.accessLatency);
    Word32At(s, 12, e.flushTimeout);
  }

  /** The record `acc` with option `id` taken from `p`. */
  function Take(acc: Params, p: Params, id: nat): Params
    requires IsOption(id) && Present(p, id)
  {
    var q := acc.(mask := acc.mask + {id});
    match id
    case 1 => q.(mtu := p.mtu)
    case 2 => q.(flushTimeout := p.flushTimeout)
    case 3 => q.(qos := p.qos)
    case 4 => q.(retxFlow := p.retxFlow)
    case 5 => q.(frameCheckSeq := p.frameCheckSeq)
    case 6 => q.(extFlow := p.extFlow)
    case 7 => q.(maxWindowSize := p.maxWindowSize)
  }

  lemma StorePayload(acc: Params, p: Params, id: nat)
    requires IsOption(id) && Present(p, id)
    ensures Store(acc, id, Payload(p, id)) == Take(acc, p, id)
  {
    match id
    case 1 => Le16Bytes(p.mtu);
    case 2 => Le16Bytes(p.flushTimeout);
    case 3 => StoreQos(acc, p.qos.value);
    case 4 => StoreRetx(acc, p.retxFlow.value);
    case 5 =>
    case 6 => StoreExt(acc, p.extFlow.value);
    case 7 => Le16Bytes(p.maxWindowSize);
  }

  // ----- splitting and parsing again -----

  /** The record `acc` with every present option from `first` up to `end` taken from `p`. */
  function TakeAll(acc: Params, p: Params, first: nat, end: nat): Params
    requires 1 <= first <= end <= END_OF_OPTIONS
    decreases end - first
  {
    if first == end then acc
    else TakeAll(if Present(p, first) then Take(acc, p, first) else acc, p, first + 1, end)
  }

  lemma {:induction false} TakeAllSplits(acc: Params, p: Params, first: nat, mid: nat, end: nat)
    requires 1 <= first <= mid <= end <= END_OF_OPTIONS
    ensures TakeAll(acc, p, first, end) == TakeAll(TakeAll(acc, p, first, mid), p, mid, end)
    decreases mid - first
  {
    hide Take;
    if first == mid {
    } else {
      TakeAllSplits(if Present(p, first) then Take(acc, p, first) else acc, p, first + 1, mid, end);
    }
  }

  /** Parsing the encoded options, whatever follows them in the stream. */
  lemma {:induction false} ParseEncoded(p: Params, first: nat, end: nat, rest: seq<byte>, acc: Params, counting: bool)
    requires 1 <= first <= end <= END_OF_OPTIONS
    ensures ParseFrom(Encode(p, first, end) + rest, |Encode(p, first, end)|, acc, 0, false, counting) ==
      Outcome(Parsed, TakeAll(acc, p, first, end), 0)
    decreases end - first
  {
    hide ParseFrom, Encode, TakeAll, Take, OptionBytes;
    var s, len := Encode(p, first, end) + rest, |Encode(p, first, end)|;
    if first == end {
      EncodeEmpty(p, first);
      AllRead(s, len, acc, 0, false, counting);
      TakeNone(acc, p, first);
    } else {
      var tail := Encode(p, first + 1, end);
      EncodeFirst(p, first, end);
      TakeStep(acc, p, first, end);
      assert s == OptionBytes(p, first) + (tail + rest);
      if Present(p, first) {
        ParseOneEncoded(p, first, tail + rest, len, acc, counting);
        ParseEncoded(p, first + 1, end, rest, Take(acc, p, first), counting);
      } else {
        AbsentIsEmpty(p, first);
        assert [] + tail == tail;
        ParseEncoded(p, first + 1, end, rest, acc, counting);
      }
    }
  }

  lemma AbsentIsEmpty(p: Params, id: nat)
    requires IsOption(id) && !Present(p, id)
    ensures OptionBytes(p, id) == []
  {
  }

  lemma TakeNone(acc: Params, p: Params, first: nat)
    requires 1 <= first <= END_OF_OPTIONS
    ensures TakeAll(acc, p, first, first) == acc
  {
  }

  lemma TakeStep(acc: Params, p: Params, first: nat, end: nat)
    requires 1 <= first < end <= END_OF_OPTIONS
    ensures TakeAll(acc, p, first, end) ==
      TakeAll(if Present(p, first) then Take(acc, p, first) else acc, p, first + 1, end)
  {
    hide Take;
  }

  lemma ParseOneEncoded(p: Params, id: nat, rest: seq<byte>, left: nat, acc: Params, counting: bool)
    requires IsOption(id) && Present(p, id) && left >= 2 + PayloadLen(id)
    ensures |OptionBytes(p, id)| == 2 + PayloadLen(id)
    ensures ParseFrom(OptionBytes(p, id) + rest, left, acc, 0, false, counting) ==
      ParseFrom(rest, left - |OptionBytes(p, id)|, Take(acc, p, id), 0, false, counting)
  {
    hide ParseFrom, Take, Store, Payload, ParseKnown;
    var n, payload := PayloadLen(id), Payload(p, id);
    var s, body := OptionBytes(p, id) + rest, payload + rest;
    assert s == [id, n] + body;
    assert Prefix(s, 2) == [id, n] && Suffix(s, 2) == body;
    assert body[..n] == payload && Suffix(body, n) == rest;
    StorePayload(acc, p, id);
    KnownInOrder(acc, id, body);
    OneOption(s, left, acc, 0, false, counting);
  }

  /** Messages parsed one after the other into one record, as continued requests are. */
  function ParseBlocks(blocks: seq<seq<byte>>, acc: Params): Outcome {
    if blocks == [] then Outcome(Parsed, acc, 0)
    else
      var r := Parse(blocks[0], |blocks[0]|, acc, true);
      if r.code != Parsed then r else ParseBlocks(blocks[1..], r.params)
  }

  lemma {:induction false} ParseAllBlocks(p: Params, start: nat, limit: nat, acc: Params)
    requires 1 <= start <= END_OF_OPTIONS && AllFit(p, limit)
    ensures ParseBlocks(Blocks(p, start, limit), acc) == Outcome(Parsed, TakeAll(acc, p, start, END_OF_OPTIONS), 0)
    decreases END_OF_OPTIONS - start
  {
    hide Encode, TakeAll, ParseFrom, StopFrom;
    var stop := Stop(p, start, limit);
    var block := Encode(p, start, stop);
    ParseEncoded(p, start, stop, [], acc, true);
    assert block + [] == block;
    if stop == END_OF_OPTIONS {
      var one := TakeAll(acc, p, start, stop);
      assert Blocks(p, start, limit) == [block];
      assert ParseBlocks([block], acc) == ParseBlocks([block][1..], one);
    } else {
      Progress(p, start, limit);
      ParseAllBlocks(p, stop, limit, TakeAll(acc, p, start, stop));
      TakeAllSplits(acc, p, start, stop, END_OF_OPTIONS);
      assert Blocks(p, start, limit)[1..] == Blocks(p, stop, limit);
    }
  }

  /** What arrives of a record when its options below `end` have been on the wire: the mask names exactly those that
      are present, and plain values that are not set read as zero. */
  function UpTo(p: Params, end: nat): Params {
    Params(set id | 1 <= id < end && IsOption(id) && Present(p, id),
           if MTU < end && MTU in p.mask then p.mtu else 0,
           if FLUSH_TIMEOUT < end && FLUSH_TIMEOUT in p.mask then p.flushTimeout else 0,
           if FRAME_CHECK_SEQ < end && FRAME_CHECK_SEQ in p.mask then p.frameCheckSeq else 0,
           if MAX_WINDOW_SIZE < end && MAX_WINDOW_SIZE in p.mask then p.maxWindowSize else 0,
           if QOS < end then p.qos else None,
           if RETX_FLOW < end then p.retxFlow else None,
           if EXT_FLOW < end then p.extFlow else None)
  }

  function Normal(p: Params): Params {
    UpTo(p, END_OF_OPTIONS)
  }

  lemma {:induction false} TakenUpTo(p: Params, end: nat)
    requires 1 <= end <= END_OF_OPTIONS
    ensures TakeAll(CLEARED, p, 1, end) == UpTo(p, end)
  {
    hide TakeAll, Take, UpTo;
    if end == 1 {
      TakeNone(CLEARED, p, 1);
      UpToNothing(p);
    } else {
      TakeAllSplits(CLEARED, p, 1, end - 1, end);
      TakenUpTo(p, end - 1);
      TakenNext(p, end - 1);
    }
  }

  lemma UpToNothing(p: Params)
    ensures UpTo(p, 1) == CLEARED
  {
  }

  lemma TakenNext(p: Params, id: nat)
    requires IsOption(id)
    ensures TakeAll(UpTo(p, id), p, id, id + 1) == UpTo(p, id + 1)
  {
    hide TakeAll;
    var before := UpTo(p, id);
    var after := if Present(p, id) then Take(before, p, id) else before;
    TakeStep(before, p, id, id + 1);
    TakeNone(after, p, id + 1);
    assert after.mask == UpTo(p, id + 1).mask;
  }

  /** Any configuration split for any MTU that its options fit, parsed message by message
      into a cleared record, comes back whole. */
  lemma SplitRoundTrip(p: Params, limit: nat)
    requires AllFit(p, limit)
    ensures ParseBlocks(Blocks(p, 1, limit), CLEARED) == Outcome(Parsed, Normal(p), 0)
  {
    ParseAllBlocks(p, 1, limit, CLEARED);
    TakenUpTo(p, END_OF_OPTIONS);
  }

  /** The hint bit loses a structured option: it is marked as set but its value is dropped. */
  lemma HintedStructuredOptionIsDropped(p: Params, id: nat, rest: seq<byte>)
    requires IsOption(id) && Present(p, id)
    ensures var s := [id + HINT, PayloadLen(id)] + Payload(p, id);
      var r := Parse(s + rest, |s|, CLEARED, true);
      r.code == Parsed && (r.params == Take(CLEARED, p, id) <==> !IsStructured(id))
  {
    hide ParseFrom, Store, Payload, ParseKnown;
    var n, payload := PayloadLen(id), Payload(p, id);
    KnownInOrder(CLEARED, id + HINT, payload + rest);
    var s, body := [id + HINT, n] + payload + rest, payload + rest;
    assert s == [id + HINT, n] + body;
    assert Prefix(s, 2) == [id + HINT, n] && Suffix(s, 2) == body;
    assert body[..n] == payload && Suffix(body, n) == rest;
    StorePayload(CLEARED, p, id);
    OneOption(s, 2 + n, CLEARED, 0, false, true);
    AllRead(rest, 0, Take(CLEARED, p, id), 0, false, true);
    AllRead(rest, 0, CLEARED.(mask := {id}), 0, false, true);
    assert CLEARED.mask + {id} == {id};
  }
}
