/** L2CAP configuration options (section 5 of Vol 3 Part A of the Bluetooth Core
    specification): the parameter record, its wire form, and how a record is split over
    several requests. */
module L2capOptions {
  import opened Prelude
  import opened Bytes

  const MTU := 1
  const FLUSH_TIMEOUT := 2
  const QOS := 3
  const RETX_FLOW := 4
  const FRAME_CHECK_SEQ := 5
  const EXT_FLOW := 6
  const MAX_WINDOW_SIZE := 7
  /** One past the last option number. */
  const END_OF_OPTIONS := 8
  const HINT := 0x80

  datatype Qos = Qos(flags: byte, serviceType: byte, tokenRate: u32, tokenBucketSize: u32,
                     peakBandwidth: u32, accessLatency: u32, delayVariation: u32)

  datatype RetxFlow = RetxFlow(mode: byte, txWindowSize: byte, maxTransmit: byte,
                               retxTimeout: u16, monitorTimeout: u16, maxPduSize: u16)

  datatype ExtFlow = ExtFlow(identifier: byte, serviceType: byte, maxSduSize: u16,
                             sduInterTime: u32, accessLatency: u32, flushTimeout: u32)

  /** The mask says which of the plain fields are set; a structured field is set when its
      pointer is not null, whatever the mask says. */
  datatype Params = Params(mask: set<nat>, mtu: u16, flushTimeout: u16, frameCheckSeq: byte, maxWindowSize: u16,
                           qos: Option<Qos>, retxFlow: Option<RetxFlow>, extFlow: Option<ExtFlow>)

  const CLEARED := Params({}, 0, 0, 0, 0, None, None, None)

  predicate IsOption(id: nat) {
    1 <= id < END_OF_OPTIONS
  }

  predicate IsStructured(id: nat) {
    id == QOS || id == RETX_FLOW || id == EXT_FLOW
  }

  predicate Present(p: Params, id: nat) {
    if id == QOS then p.qos.Some?
    else if id == RETX_FLOW then p.retxFlow.Some?
    else if id == EXT_FLOW then p.extFlow.Some?
    else id in p.mask
  }

  function PayloadLen(id: nat): (n: nat)
    requires IsOption(id)
    ensures n <= 22
  {
    match id
    case 3 => 22
    case 4 => 9
    case 5 => 1
    case 6 => 16
    case _ => 2
  }

  function Le16(v: u16): seq<byte> { LittleEndian(v, 2) }

  function Le32(v: u32): seq<byte> { LittleEndian(v, 4) }

  function QosBytes(q: Qos): seq<byte> {
    [q.flags, q.serviceType] + Le32(q.tokenRate) + Le32(q.tokenBucketSize) + Le32(q.peakBandwidth)
    + Le32(q.accessLatency) + Le32(q.delayVariation)
  }

  function RetxBytes(r: RetxFlow): seq<byte> {
    [r.mode, r.txWindowSize, r.maxTransmit] + Le16(r.retxTimeout) + Le16(r.monitorTimeout) + Le16(r.maxPduSize)
  }

  function ExtBytes(e: ExtFlow): seq<byte> {
    [e.identifier, e.serviceType] + Le16(e.maxSduSize) + Le32(e.sduInterTime)
    + Le32(e.accessLatency) + Le32(e.flushTimeout)
  }

  function Payload(p: Params, id: nat): (s: seq<byte>)
    requires IsOption(id) && Present(p, id)
    ensures |s| == PayloadLen(id)
  {
    match id
    case 1 => Le16(p.mtu)
    case 2 => Le16(p.flushTimeout)
    case 3 => QosBytes(p.qos.value)
    case 4 => RetxBytes(p.retxFlow.value)
    case 5 => [p.frameCheckSeq]
    case 6 => ExtBytes(p.extFlow.value)
    case 7 => Le16(p.maxWindowSize)
  }

  function OptionBytes(p: Params, id: nat): (s: seq<byte>)
    requires IsOption(id)
    ensures |s| == if Present(p, id) then 2 + PayloadLen(id) else 0
  {
    if Present(p, id) then [id, PayloadLen(id)] + Payload(p, id) else []
  }

  /** The options numbered from `first` up to, not including, `end`. */
  function Encode(p: Params, first: nat, end: nat): seq<byte>
    requires 1 <= first <= end <= END_OF_OPTIONS
    decreases end - first
  {
    if first == end then [] else OptionBytes(p, first) + Encode(p, first + 1, end)
  }

  function EncodedLen(p: Params, first: nat, end: nat): nat
    requires 1 <= first <= end <= END_OF_OPTIONS
    decreases end - first
  {
    if first == end then 0 else OptionLen(p, first) + EncodedLen(p, first + 1, end)
  }

  function OptionLen(p: Params, id: nat): nat
    requires IsOption(id)
  {
    if Present(p, id) then 2 + PayloadLen(id) else 0
  }

  lemma {:induction false} LengthOfEncoding(p: Params, first: nat, end: nat)
    requires 1 <= first <= end <= END_OF_OPTIONS
    ensures |Encode(p, first, end)| == EncodedLen(p, first, end)
    decreases end - first
  {
    if first == end {
    } else {
      LengthOfEncoding(p, first + 1, end);
    }
  }

  lemma {:induction false} EncodeFirst(p: Params, first: nat, end: nat)
    requires 1 <= first < end <= END_OF_OPTIONS
    ensures IsOption(first) && Encode(p, first, end) == OptionBytes(p, first) + Encode(p, first + 1, end)
  {
    hide OptionBytes;
  }

  lemma {:induction false} EncodeSplits(p: Params, first: nat, mid: nat, end: nat)
    requires 1 <= first <= mid <= end <= END_OF_OPTIONS
    ensures Encode(p, first, end) == Encode(p, first, mid) + Encode(p, mid, end)
    decreases mid - first
  {
    hide *;
    if first == mid {
      EncodeEmpty(p, first);
      assert [] + Encode(p, mid, end) == Encode(p, mid, end);
    } else {
      EncodeFirst(p, first, mid);
      EncodeFirst(p, first, end);
      EncodeSplits(p, first + 1, mid, end);
      var a, b, c := OptionBytes(p, first), Encode(p, first + 1, mid), Encode(p, mid, end);
      assert a + (b + c) == (a + b) + c;
    }
  }

  // ----- splitting over several messages (l2cap.c:472-623, 648-700) -----

  /** The first option from `id` on that no longer fits, when `used` bytes are taken. An
      option that is not present takes no room. */
  function StopFrom(p: Params, id: nat, used: nat, limit: nat): (stop: nat)
    requires 1 <= id <= END_OF_OPTIONS && used <= limit
    ensures id <= stop <= END_OF_OPTIONS
    decreases END_OF_OPTIONS - id
  {
    if id == END_OF_OPTIONS || used + OptionLen(p, id) > limit then id
    else StopFrom(p, id + 1, used + OptionLen(p, id), limit)
  }

  function Stop(p: Params, start: nat, limit: nat): (stop: nat)
    requires 1 <= start <= END_OF_OPTIONS
    ensures start <= stop <= END_OF_OPTIONS
  {
    StopFrom(p, start, 0, limit)
  }

  /** A block never takes more than the limit, and it is greedy: the option it stops at is
      present and would not fit any more. */
  lemma {:induction false} BlockIsGreedy(p: Params, id: nat, used: nat, limit: nat)
    requires 1 <= id <= END_OF_OPTIONS && used <= limit
    ensures used + EncodedLen(p, id, StopFrom(p, id, used, limit)) <= limit
    ensures StopFrom(p, id, used, limit) < END_OF_OPTIONS ==>
      used + EncodedLen(p, id, StopFrom(p, id, used, limit)) + OptionLen(p, StopFrom(p, id, used, limit)) > limit
    decreases END_OF_OPTIONS - id
  {
    hide OptionLen;
    var stop := StopFrom(p, id, used, limit);
    if stop == id {
      assert EncodedLen(p, id, id) == 0;
    } else {
      var next := used + OptionLen(p, id);
      assert stop == StopFrom(p, id + 1, next, limit);
      assert EncodedLen(p, id, stop) == OptionLen(p, id) + EncodedLen(p, id + 1, stop);
      hide StopFrom, EncodedLen;
      BlockIsGreedy(p, id + 1, next, limit);
    }
  }

  lemma {:induction false} EncodeEmpty(p: Params, first: nat)
    requires 1 <= first <= END_OF_OPTIONS
    ensures Encode(p, first, first) == []
    ensures first < END_OF_OPTIONS ==> Encode(p, first + 1, first + 1) == []
  {
  }

  /** Every option that is present fits a message on its own. */
  predicate AllFit(p: Params, limit: nat) {
    forall id | 1 <= id < END_OF_OPTIONS :: Present(p, id) ==> 2 + PayloadLen(id) <= limit
  }

  /** The largest option takes 24 bytes; the smallest MTU a conforming peer has is 48. */
  lemma LargeMtuFitsAll(p: Params, limit: nat)
    requires limit >= 24
    ensures AllFit(p, limit)
  {
  }

  lemma {:induction false} Progress(p: Params, start: nat, limit: nat)
    requires 1 <= start < END_OF_OPTIONS
    ensures Stop(p, start, limit) > start <==> !Present(p, start) || 2 + PayloadLen(start) <= limit
  {
  }

  /** The option blocks of successive messages. */
  function Blocks(p: Params, start: nat, limit: nat): (blocks: seq<seq<byte>>)
    requires 1 <= start <= END_OF_OPTIONS && AllFit(p, limit)
    ensures blocks != []
    decreases END_OF_OPTIONS - start
  {
    var stop := Stop(p, start, limit);
    if stop == END_OF_OPTIONS then [Encode(p, start, stop)]
    else
      Progress(p, start, limit);
      [Encode(p, start, stop)] + Blocks(p, stop, limit)
  }

  function Concat(blocks: seq<seq<byte>>): seq<byte> {
    if blocks == [] then [] else blocks[0] + Concat(blocks[1..])
  }

  /** Splitting loses, repeats and reorders nothing, and every block fits. */
  lemma {:induction false} BlocksConcatenate(p: Params, start: nat, limit: nat)
    requires 1 <= start <= END_OF_OPTIONS && AllFit(p, limit)
    ensures Concat(Blocks(p, start, limit)) == Encode(p, start, END_OF_OPTIONS)
    ensures forall i :: 0 <= i < |Blocks(p, start, limit)| ==> |Blocks(p, start, limit)[i]| <= limit
    ensures |Blocks(p, start, limit)| <= if start == END_OF_OPTIONS then 1 else END_OF_OPTIONS - start
    decreases END_OF_OPTIONS - start
  {
    var stop := Stop(p, start, limit);
    BlockIsGreedy(p, start, 0, limit);
    LengthOfEncoding(p, start, stop);
    if stop == END_OF_OPTIONS {
      assert Concat([Encode(p, start, stop)]) == Encode(p, start, stop) + [];
    } else {
      Progress(p, start, limit);
      BlocksConcatenate(p, stop, limit);
      EncodeSplits(p, start, stop, END_OF_OPTIONS);
      assert Blocks(p, start, limit)[1..] == Blocks(p, stop, limit);
    }
  }

  /** The start command after n turns of the request loop; END_OF_OPTIONS means it is done. */
  function AfterTurns(p: Params, limit: nat, n: nat): (start: nat)
    ensures 1 <= start <= END_OF_OPTIONS
  {
    if n == 0 then 1
    else
      var start := AfterTurns(p, limit, n - 1);
      if start == END_OF_OPTIONS then start else Stop(p, start, limit)
  }

  /** The option block of the message that turn n sends. */
  function BlockOfTurn(p: Params, limit: nat, n: nat): seq<byte> {
    Encode(p, AfterTurns(p, limit, n), AfterTurns(p, limit, n + 1))
  }

  /** If every option fits, the turns send the blocks, one each. */
  lemma {:induction false} BlocksAreTurns(p: Params, limit: nat, n: nat, i: nat)
    requires AllFit(p, limit) && AfterTurns(p, limit, n) < END_OF_OPTIONS
    requires i < |Blocks(p, AfterTurns(p, limit, n), limit)|
    ensures Blocks(p, AfterTurns(p, limit, n), limit)[i] == BlockOfTurn(p, limit, n + i)
    ensures AfterTurns(p, limit, n + i) < END_OF_OPTIONS
    ensures i + 1 == |Blocks(p, AfterTurns(p, limit, n), limit)| <==> AfterTurns(p, limit, n + i + 1) == END_OF_OPTIONS
    decreases i
  {
    hide Encode, StopFrom, AllFit;
    var start, next := AfterTurns(p, limit, n), AfterTurns(p, limit, n + 1);
    Progress(p, start, limit);
    var blocks := Blocks(p, start, limit);
    assert next == Stop(p, start, limit) && blocks[0] == BlockOfTurn(p, limit, n);
    if i == 0 {
      assert next < END_OF_OPTIONS ==> |blocks| == 1 + |Blocks(p, next, limit)|;
    } else {
      hide Blocks, Stop, AfterTurns, BlockOfTurn;
      BlocksAreTurns(p, limit, n + 1, i - 1);
      assert n + 1 + (i - 1) == n + i;
    }
  }

  ghost predicate LoopEnds(p: Params, limit: nat) {
    exists n :: n >= 1 && AfterTurns(p, limit, n) == END_OF_OPTIONS
  }

  /** The request loop terminates exactly when every present option fits a message: the
      start command strictly grows until then, and an option too large stops it for ever. */
  lemma {:induction false} LoopEndsIffAllFit(p: Params, limit: nat)
    ensures LoopEnds(p, limit) <==> AllFit(p, limit)
  {
    if AllFit(p, limit) {
      StartGrows(p, limit, END_OF_OPTIONS);
      assert AfterTurns(p, limit, END_OF_OPTIONS) == END_OF_OPTIONS;
    } else {
      var id :| 1 <= id < END_OF_OPTIONS && Present(p, id) && 2 + PayloadLen(id) > limit;
      forall n: nat
        ensures AfterTurns(p, limit, n) <= id
      {
        NeverPasses(p, limit, id, n);
      }
    }
  }

  lemma {:induction false} StartGrows(p: Params, limit: nat, n: nat)
    requires AllFit(p, limit)
    ensures AfterTurns(p, limit, n) >= if n + 1 < END_OF_OPTIONS then n + 1 else END_OF_OPTIONS
    decreases n
  {
    if n == 0 {
    } else {
      StartGrows(p, limit, n - 1);
      var start := AfterTurns(p, limit, n - 1);
      if start < END_OF_OPTIONS {
        Progress(p, start, limit);
      }
    }
  }

  lemma {:induction false} NeverPasses(p: Params, limit: nat, id: nat, n: nat)
    requires IsOption(id) && Present(p, id) && 2 + PayloadLen(id) > limit
    ensures AfterTurns(p, limit, n) <= id
    decreases n
  {
    if n == 0 {
    } else {
      NeverPasses(p, limit, id, n - 1);
      StopsBefore(p, AfterTurns(p, limit, n - 1), 0, limit, id);
    }
  }

  /** With an option that fits no message, the loop stands still after seven turns at the latest: it goes on sending
      messages without any option. */
  lemma {:induction false} StandsStill(p: Params, limit: nat, n: nat)
    requires !AllFit(p, limit) && n >= 6
    ensures AfterTurns(p, limit, n + 1) == AfterTurns(p, limit, n) < END_OF_OPTIONS && BlockOfTurn(p, limit, n) == []
  {
    var id :| 1 <= id < END_OF_OPTIONS && Present(p, id) && 2 + PayloadLen(id) > limit;
    NeverPasses(p, limit, id, n);
    NeverPasses(p, limit, id, n + 1);
    GrowsOrStands(p, limit, n);
    EncodeEmpty(p, AfterTurns(p, limit, n));
  }

  lemma {:induction false} GrowsOrStands(p: Params, limit: nat, n: nat)
    ensures AfterTurns(p, limit, n) >= n + 1 || AfterTurns(p, limit, n + 1) == AfterTurns(p, limit, n)
    decreases n
  {
    if n == 0 {
    } else {
      hide Stop;
      GrowsOrStands(p, limit, n - 1);
      assert AfterTurns(p, limit, n) >= AfterTurns(p, limit, n - 1);
    }
  }

  lemma {:induction false} StopsBefore(p: Params, first: nat, used: nat, limit: nat, id: nat)
    requires IsOption(id) && OptionLen(p, id) > limit && 1 <= first <= id && used <= limit
    ensures StopFrom(p, first, used, limit) <= id
    decreases id - first
  {
    hide OptionLen;
    if first < id && used + OptionLen(p, first) <= limit {
      StopsBefore(p, first + 1, used + OptionLen(p, first), limit, id);
    }
  }
}
