/** What the configuration messages of both sides amount to: the responses a channel collects, and the answer it sends
    in parts (l2cap.c:735-818, 923-1038). */
module L2capReplies {
  import opened Prelude
  import opened Bytes
  import opened L2capOptions
  import opened L2capConfig
  import opened L2capParse
  import opened L2capRoundTrip
  import opened L2capUnknown
  import opened L2capEvents
  import opened L2capChannel
  import opened L2capRuns

  // ----- any list of options, in any order -----

  /** The options named in a list, hinted or not; numbers that are no option do not count. */
  function Types(os: seq<WireOption>): set<nat> {
    set i | 0 <= i < |os| && IsOption(os[i].typ % 128) :: os[i].typ % 128 as nat
  }

  /** The value of the last MTU option. */
  function LastMtu(os: seq<WireOption>): Option<u16>
    requires AllWire(os)
  {
    if os == [] then None
    else
      var last := os[|os| - 1];
      assert IsWire(last);
      if last.typ % 128 == MTU then Some(Word16(last.payload, 0)) else LastMtu(os[..|os| - 1])
  }

  /** One option read into a record. */
  function StoreOne(p: Params, o: WireOption): Params
    requires IsWire(o)
  {
    var id := o.typ % 128;
    if !IsOption(id) then p
    else if IsStructured(id) && o.typ >= HINT then p.(mask := p.mask + {id})
    else Store(p, id, o.payload)
  }

  function StoreAll(p: Params, os: seq<WireOption>): Params
    requires AllWire(os)
    decreases |os|
  {
    if os == [] then p else StoreAll(StoreOne(p, os[0]), os[1..])
  }

  /** Unless the size of unknown options is asked for, they are passed over, and all others are stored in order. */
  lemma {:induction false} ParseStoresAll(os: seq<WireOption>, rest: seq<byte>, p: Params, sawUnknown: bool)
    requires AllWire(os)
    ensures ParseFrom(Wire(os) + rest, |Wire(os)|, p, 0, sawUnknown, false) == Outcome(Parsed, StoreAll(p, os), 0)
    decreases os
  {
    hide ParseFrom, Store, Clear, SetPlain, ParseKnown;
    if os == [] {
      AllRead([] + rest, 0, p, 0, sawUnknown, false);
    } else {
      var o, tail := os[0], Wire(os[1..]);
      assert IsWire(o);
      assert Wire(os) + rest == WireBytes(o) + (tail + rest);
      WireFirst(o, tail + rest);
      OneOption(Wire(os) + rest, |Wire(os)|, p, 0, sawUnknown, false);
      if IsOption(o.typ % 128) {
        var body := o.payload + (tail + rest);
        KnownInOrder(p, o.typ, body);
        assert body[..|o.payload|] == o.payload;
        ParseStoresAll(os[1..], rest, StoreOne(p, o), sawUnknown);
      } else {
        ParseStoresAll(os[1..], rest, p, sawUnknown || o.typ < HINT);
      }
    }
  }

  lemma {:induction false} StoreAllSnoc(p: Params, os: seq<WireOption>, o: WireOption)
    requires AllWire(os) && IsWire(o)
    ensures AllWire(os + [o]) && StoreAll(p, os + [o]) == StoreOne(StoreAll(p, os), o)
    decreases |os|
  {
    hide StoreOne;
    if os == [] {
      assert (os + [o])[1..] == [];
    } else {
      StoreAllSnoc(StoreOne(p, os[0]), os[1..], o);
      assert (os + [o])[1..] == os[1..] + [o];
    }
  }

  /** What a list adds to a record: its options to the mask, and the value of its last MTU option. */
  lemma {:induction false} StoreAllSays(p: Params, os: seq<WireOption>)
    requires AllWire(os)
    ensures StoreAll(p, os).mask == p.mask + Types(os)
    ensures StoreAll(p, os).mtu == if LastMtu(os).Some? then LastMtu(os).value else p.mtu
    ensures LastMtu(os).Some? <==> MTU in Types(os)
  {
    hide StoreOne, Types;
    if os == [] {
      TypesOfNothing();
    } else {
      var front, o := os[..|os| - 1], os[|os| - 1];
      StoreAllSays(p, front);
      StoreAllSnoc(p, front, o);
      TypesSnoc(front, o);
      assert os == front + [o] && IsWire(o);
      StoreOneSays(StoreAll(p, front), o);
    }
  }

  lemma StoreOneSays(p: Params, o: WireOption)
    requires IsWire(o)
    ensures var id, next := o.typ % 128, StoreOne(p, o);
      && next.mask == (if IsOption(id) then p.mask + {id as nat} else p.mask)
      && next.mtu == if id == MTU then Word16(o.payload, 0) else p.mtu
  {
  }

  lemma TypesOfNothing()
    ensures Types([]) == {}
  {
  }

  lemma TypesSnoc(os: seq<WireOption>, o: WireOption)
    ensures Types(os + [o]) == Types(os) + if IsOption(o.typ % 128) then {o.typ % 128 as nat} else {}
  {
    var more := os + [o];
    forall t | t in Types(os)
      ensures t in Types(more)
    {
      var i :| 0 <= i < |os| && IsOption(os[i].typ % 128) && os[i].typ % 128 == t;
      assert more[i] == os[i];
    }
    assert IsOption(o.typ % 128) ==> more[|os|] == o;
  }

  // ----- responses, collected part by part (l2cap.c:735-818) -----

  /** One message of the peer's response: its result and its options. */
  datatype Part = Part(result: nat, options: seq<WireOption>)

  predicate AllParts(parts: seq<Part>) {
    forall i :: 0 <= i < |parts| ==> AllWire(parts[i].options)
  }

  /** The options named in all parts that have the result. */
  function Named(parts: seq<Part>, result: nat): set<nat> {
    if parts == [] then {}
    else
      var front, last := parts[..|parts| - 1], parts[|parts| - 1];
      Named(front, result) + if last.result == result then Types(last.options) else {}
  }

  /** The options named in the last part that calls them unknown. */
  function NamedUnknown(parts: seq<Part>): set<nat> {
    if parts == [] then {}
    else
      var front, last := parts[..|parts| - 1], parts[|parts| - 1];
      if last.result == RES_ERR_UNKNOWN then Types(last.options) else NamedUnknown(front)
  }

  /** The last MTU in the parts that agree to options or propose others. */
  function MtuIn(parts: seq<Part>): Option<u16>
    requires AllParts(parts)
  {
    if parts == [] then None
    else
      var front, last := parts[..|parts| - 1], parts[|parts| - 1];
      if (last.result == RES_OK || last.result == RES_ERR_PARAMS) && LastMtu(last.options).Some?
      then LastMtu(last.options) else MtuIn(front)
  }

  /** What a channel knows once it has taken the first n parts. */
  predicate Collected(conf: ConfData, all: seq<Part>, n: nat)
    requires AllParts(all) && n <= |all|
  {
    var parts := all[..n];
    && conf.rejected == Named(parts, RES_ERR_PARAMS) && conf.unknown == NamedUnknown(parts)
    && conf.params.mask == Named(parts, RES_OK) + Named(parts, RES_ERR_PARAMS)
    && (MTU in conf.params.mask <==> MtuIn(parts).Some?)
    && (MtuIn(parts).Some? ==> conf.params.mtu == MtuIn(parts).value)
  }

  lemma NothingCollected(parts: seq<Part>)
    requires AllParts(parts)
    ensures Collected(DataOf(None), parts, 0)
  {
  }

  /** What one part adds, by its result. */
  lemma PartSays(conf: ConfData, result: nat, os: seq<WireOption>)
    requires AllWire(os) && conf.rejected <= conf.params.mask
    ensures var proposes := result == RES_OK || result == RES_ERR_PARAMS;
      var next := Stored(conf, result, |Wire(os)|, Wire(os));
      && next.rejected == (if result == RES_ERR_PARAMS then conf.rejected + Types(os) else conf.rejected)
      && next.unknown == (if result == RES_ERR_UNKNOWN then Types(os) else conf.unknown)
      && next.params.mask == (if proposes then conf.params.mask + Types(os) else conf.params.mask)
      && next.params.mtu == (if proposes && LastMtu(os).Some? then LastMtu(os).value else conf.params.mtu)
    ensures LastMtu(os).Some? <==> MTU in Types(os)
  {
    hide ParseFrom, Store, Wire, StoreAll, Types, LastMtu, AllWire;
    var start := if result == RES_ERR_PARAMS then conf.params.(mask := conf.rejected)
                 else if result == RES_ERR_UNKNOWN then CLEARED else conf.params;
    ParseStoresAll(os, [], start, false);
    assert Wire(os) + [] == Wire(os);
    StoreAllSays(start, os);
  }

  lemma OneMorePart(conf: ConfData, parts: seq<Part>, i: nat)
    requires AllParts(parts) && i < |parts| && Collected(conf, parts, i)
    ensures AllWire(parts[i].options)
    ensures var body := Wire(parts[i].options);
      Collected(Stored(conf, parts[i].result, |body|, body), parts, i + 1)
  {
    hide Stored, Wire, Types, LastMtu, AllWire;
    assert parts[..i + 1][..i] == parts[..i] && parts[..i + 1][i] == parts[i];
    PartSays(conf, parts[i].result, parts[i].options);
  }

  /** A part that announces more, as any flag does. */
  method TakeContinued(c: Channel, flags: nat, result: nat, body: seq<byte>)
    requires c.Valid() && TakesResponses(c.state) && flags != 0
    modifies c
    ensures c.Valid() && c.state == old(c.state) && c.mtu == old(c.mtu)
    ensures c.configureResp == Some(Stored(DataOf(old(c.configureResp)), result, |body|, body))
  {
    hide *;
    var _, _ := c.HandleConfigRsp(true, flags, result, 6 + |body|, body, false);
  }

  /** The last part. */
  method TakeFinal(c: Channel, result: nat, body: seq<byte>) returns (ghost told: ConfData)
    requires c.Valid() && TakesResponses(c.state)
    modifies c
    ensures c.Valid() && c.state == AfterFinal(old(c.state), result == RES_OK) && c.configureResp == None
    ensures told == Stored(DataOf(old(c.configureResp)), result, |body|, body)
    ensures c.mtu == if result == RES_OK then MtuOf(told.params) else old(c.mtu)
  {
    hide *;
    var _, client := c.HandleConfigRsp(true, 0, result, 6 + |body|, body, false);
    told := client.value;
  }

  lemma SomeData(conf: ConfData)
    ensures DataOf(Some(conf)) == conf
  {
  }

  lemma WhatIsTold(conf: ConfData, parts: seq<Part>)
    requires AllParts(parts) && Collected(conf, parts, |parts|)
    ensures conf.rejected == Named(parts, RES_ERR_PARAMS) && conf.unknown == NamedUnknown(parts)
    ensures conf.params.mask == Named(parts, RES_OK) + Named(parts, RES_ERR_PARAMS)
    ensures MtuOf(conf.params) == if MtuIn(parts).Some? then MtuIn(parts).value else MTU_DEFAULT
  {
    assert parts[..|parts|] == parts;
  }

  /** A response in any number of parts, each with any result and any options: what the client is told in the end.
      A positive one at the end leaves the MTU of the last MTU option that was agreed to or proposed, or the default;
      any other leaves the MTU alone. */
  method TakeResponse(c: Channel, flags: nat, parts: seq<Part>)
    returns (ghost held: seq<ConfData>, ghost told: ConfData)
    requires c.Valid() && TakesResponses(c.state) && c.configureResp == None && flags != 0
    requires parts != [] && AllParts(parts)
    modifies c
    ensures c.Valid() && c.configureResp == None
    ensures c.state == AfterFinal(old(c.state), parts[|parts| - 1].result == RES_OK)
    ensures |held| == |parts| - 1
    ensures forall i :: 0 <= i < |held| ==> Collected(held[i], parts, i + 1)
    ensures told.rejected == Named(parts, RES_ERR_PARAMS) && told.unknown == NamedUnknown(parts)
    ensures told.params.mask == Named(parts, RES_OK) + Named(parts, RES_ERR_PARAMS)
    ensures c.mtu == if parts[|parts| - 1].result != RES_OK then old(c.mtu)
                     else if MtuIn(parts).Some? then MtuIn(parts).value else MTU_DEFAULT
  {
    hide *;
    held := [];
    NothingCollected(parts);
    ghost var conf := DataOf(None);
    var i := 0;
    while i < |parts| - 1
      invariant 0 <= i < |parts| && |held| == i && c.Valid() && c.state == old(c.state) && c.mtu == old(c.mtu)
      invariant DataOf(c.configureResp) == conf && Collected(conf, parts, i)
      invariant forall j :: 0 <= j < i ==> Collected(held[j], parts, j + 1)
    {
      OneMorePart(conf, parts, i);
      TakeContinued(c, flags, parts[i].result, Wire(parts[i].options));
      conf := c.configureResp.value;
      SomeData(conf);
      held := held + [conf];
      i := i + 1;
    }
    OneMorePart(conf, parts, i);
    told := TakeFinal(c, parts[i].result, Wire(parts[i].options));
    WhatIsTold(told, parts);
  }

  // ----- the options of one record, in blocks -----

  /** The blocks of a whole record. */
  function AllBlocks(p: Params, limit: nat): (blocks: seq<seq<byte>>)
    requires AllFit(p, limit)
    ensures blocks != []
  {
    Blocks(p, 1, limit)
  }

  /** A record that has arrived up to `end` encodes to just these options. */
  lemma {:induction false} EncodeUpTo(p: Params, end: nat, first: nat)
    requires 1 <= first <= end <= END_OF_OPTIONS
    ensures Encode(UpTo(p, end), first, END_OF_OPTIONS) == Encode(p, first, end)
    decreases end - first
  {
    hide Encode, UpTo, OptionBytes;
    if first == end {
      EncodeEmpty(p, end);
      NothingFrom(p, end, end);
    } else {
      EncodeFirst(p, first, end);
      EncodeFirst(UpTo(p, end), first, END_OF_OPTIONS);
      EncodeUpTo(p, end, first + 1);
      OptionUpTo(p, end, first);
    }
  }

  lemma {:induction false} NothingFrom(p: Params, end: nat, first: nat)
    requires 1 <= end <= first <= END_OF_OPTIONS
    ensures Encode(UpTo(p, end), first, END_OF_OPTIONS) == []
    decreases END_OF_OPTIONS - first
  {
    hide Encode, UpTo, OptionBytes;
    if first == END_OF_OPTIONS {
      EncodeEmpty(UpTo(p, end), first);
    } else {
      EncodeFirst(UpTo(p, end), first, END_OF_OPTIONS);
      OptionUpTo(p, end, first);
      NothingFrom(p, end, first + 1);
    }
  }

  lemma OptionUpTo(p: Params, end: nat, id: nat)
    requires IsOption(id) && 1 <= end <= END_OF_OPTIONS
    ensures OptionBytes(UpTo(p, end), id) == if id < end then OptionBytes(p, id) else []
  {
    hide Le16, QosBytes, RetxBytes, ExtBytes;
  }

  lemma BlockIsTurn(p: Params, limit: nat, i: nat)
    requires AllFit(p, limit) && i < |AllBlocks(p, limit)|
    ensures AllBlocks(p, limit)[i] == Encode(p, AfterTurns(p, limit, i), AfterTurns(p, limit, i + 1))
  {
    hide AllFit, Encode, Blocks, Stop;
    assert AfterTurns(p, limit, 0) == 1;
    BlocksAreTurns(p, limit, 0, i);
  }

  /** The first i blocks put together. */
  lemma {:induction false} BlocksSoFar(p: Params, limit: nat, i: nat)
    requires AllFit(p, limit) && i <= |AllBlocks(p, limit)|
    ensures Flatten(AllBlocks(p, limit)[..i]) == Encode(p, 1, AfterTurns(p, limit, i))
  {
    hide Blocks, AllFit, Flatten, Encode, Stop;
    var blocks := AllBlocks(p, limit);
    if i == 0 {
      EncodeEmpty(p, 1);
      FlattenEmpty();
    } else {
      BlocksSoFar(p, limit, i - 1);
      BlockIsTurn(p, limit, i - 1);
      TurnsJoin(p, limit, i - 1);
      FlattenSnoc(blocks[..i - 1], blocks[i - 1]);
      assert blocks[..i - 1] + [blocks[i - 1]] == blocks[..i];
    }
  }

  lemma FlattenEmpty()
    ensures Flatten<byte>([]) == []
  {
  }

  /** The options sent in n turns, and those of the next one. */
  lemma TurnsJoin(p: Params, limit: nat, n: nat)
    ensures 1 <= AfterTurns(p, limit, n) <= AfterTurns(p, limit, n + 1) <= END_OF_OPTIONS
    ensures Encode(p, 1, AfterTurns(p, limit, n)) + BlockOfTurn(p, limit, n) ==
      Encode(p, 1, AfterTurns(p, limit, n + 1))
  {
    hide Encode, Stop;
    EncodeSplits(p, 1, AfterTurns(p, limit, n), AfterTurns(p, limit, n + 1));
  }

  /** The record that has the options of the first n turns. */
  function Arrived(p: Params, limit: nat, n: nat): ConfData {
    NO_DATA.(params := UpTo(p, AfterTurns(p, limit, n)))
  }

  lemma NothingArrived(p: Params, limit: nat)
    ensures Arrived(p, limit, 0) == DataOf(None)
  {
    UpToNothing(p);
  }

  /** Nothing but options is known, and they are those of the first n blocks. */
  predicate Holds(conf: ConfData, p: Params, limit: nat, n: nat)
    requires AllFit(p, limit) && n <= |AllBlocks(p, limit)|
  {
    && conf == NO_DATA.(params := conf.params)
    && Encode(conf.params, 1, END_OF_OPTIONS) == Flatten(AllBlocks(p, limit)[..n])
  }

  /** One more block of a record that is agreed to. */
  lemma BlockArrives(p: Params, limit: nat, i: nat)
    requires AllFit(p, limit) && i < |AllBlocks(p, limit)|
    ensures var block := AllBlocks(p, limit)[i];
      && Stored(Arrived(p, limit, i), RES_OK, |block|, block) == Arrived(p, limit, i + 1)
      && Parse(block, |block|, Arrived(p, limit, i).params, true) == Outcome(Parsed, Arrived(p, limit, i + 1).params, 0)
      && Holds(Arrived(p, limit, i + 1), p, limit, i + 1)
  {
    hide AllFit, Flatten, ParseFrom, UpTo, Blocks, AfterTurns, Encode;
    BlockIsTurn(p, limit, i);
    BlocksSoFar(p, limit, i + 1);
    TurnsJoin(p, limit, i);
    StretchArrives(p, AfterTurns(p, limit, i), AfterTurns(p, limit, i + 1));
  }

  /** A record that has arrived up to one option, and the options from there on. */
  lemma StretchArrives(p: Params, a: nat, b: nat)
    requires 1 <= a <= b <= END_OF_OPTIONS
    ensures var body := Encode(p, a, b); forall counting ::
      Parse(body, |body|, UpTo(p, a), counting) == Outcome(Parsed, UpTo(p, b), 0)
    ensures Encode(UpTo(p, b), 1, END_OF_OPTIONS) == Encode(p, 1, b)
  {
    hide ParseFrom, TakeAll, UpTo, Encode;
    var body := Encode(p, a, b);
    assert body + [] == body;
    ParseEncoded(p, a, b, [], UpTo(p, a), true);
    ParseEncoded(p, a, b, [], UpTo(p, a), false);
    TakenUpTo(p, a);
    TakenUpTo(p, b);
    TakeAllSplits(CLEARED, p, 1, a, b);
    EncodeUpTo(p, b, 1);
  }

  lemma AllArrived(p: Params, limit: nat)
    requires AllFit(p, limit)
    ensures Arrived(p, limit, |AllBlocks(p, limit)|) == NO_DATA.(params := Normal(p))
    ensures MtuOf(Normal(p)) == if MTU in p.mask then p.mtu else MTU_DEFAULT
  {
    LastTurn(p, limit);
    hide AllFit, Blocks, AfterTurns;
  }

  lemma LastTurn(p: Params, limit: nat)
    requires AllFit(p, limit)
    ensures AfterTurns(p, limit, |AllBlocks(p, limit)|) == END_OF_OPTIONS
  {
    hide AllFit, Encode, BlockOfTurn, Stop;
    var n := |AllBlocks(p, limit)|;
    assert AfterTurns(p, limit, 0) == 1;
    BlocksAreTurns(p, limit, 0, n - 1);
  }

  /** The peer agrees to the options of a record and sends them in blocks, for any MTU that each of them fits. After
      every block the channel holds exactly the options received; in the end the client is told the whole record, and
      the MTU is the agreed one, or the default if there is none among the options. */
  method TakeBlocks(c: Channel, flags: nat, p: Params, limit: nat)
    returns (ghost held: seq<ConfData>, ghost told: ConfData)
    requires c.Valid() && TakesResponses(c.state) && c.configureResp == None && AllFit(p, limit) && flags != 0
    modifies c
    ensures c.Valid() && c.configureResp == None && c.state == AfterFinal(old(c.state), true)
    ensures |held| == |AllBlocks(p, limit)| - 1
    ensures forall i :: 0 <= i < |held| ==> Holds(held[i], p, limit, i + 1)
    ensures told == NO_DATA.(params := Normal(p))
    ensures c.mtu == if MTU in p.mask then p.mtu else MTU_DEFAULT
  {
    hide *;
    var blocks := AllBlocks(p, limit);
    held := [];
    var i := 0;
    NothingArrived(p, limit);
    while i < |blocks| - 1
      invariant 0 <= i < |blocks| && |held| == i && c.Valid() && c.state == old(c.state)
      invariant DataOf(c.configureResp) == Arrived(p, limit, i)
      invariant forall j :: 0 <= j < i ==> Holds(held[j], p, limit, j + 1)
    {
      BlockArrives(p, limit, i);
      TakeContinued(c, flags, RES_OK, blocks[i]);
      SomeData(c.configureResp.value);
      held := held + [c.configureResp.value];
      i := i + 1;
    }
    BlockArrives(p, limit, i);
    told := TakeFinal(c, RES_OK, blocks[i]);
    AllArrived(p, limit);
  }

  // ----- the answer to a request, sent in parts (l2cap.c:923-1038) -----

  /** The MTU that answering a request leaves: the one agreed to, or the default; a refusal leaves it alone. */
  function AnswerMtu(q: Params, answer: Option<ConfReply>, before: nat): nat {
    if answer.Some? && answer.value.rejected != {} then before
    else
      var p := if answer.Some? then answer.value.params else q;
      if MTU in p.mask then p.mtu else MTU_DEFAULT
  }

  /** An option of the answer to the request q: always the MTU in force, unless the client refuses; what the client
      set, if it set anything; and the structured options of the request that its mask does not name. */
  function AnswerOption(q: Params, answer: Option<ConfReply>, limit: nat, id: nat): seq<byte>
    requires IsOption(id)
  {
    if id == MTU && (answer.None? || answer.value.rejected == {}) then [MTU, 2] + LittleEndian(limit, 2)
    else if answer.None? || (IsStructured(id) && id !in answer.value.params.mask) then OptionBytes(q, id)
    else OptionBytes(answer.value.params, id)
  }

  /** The options of the answer from `first` on, unsplit. */
  function AnswerFrom(q: Params, answer: Option<ConfReply>, limit: nat, first: nat): seq<byte>
    requires 1 <= first <= END_OF_OPTIONS
    decreases END_OF_OPTIONS - first
  {
    if first == END_OF_OPTIONS then []
    else AnswerOption(q, answer, limit, first) + AnswerFrom(q, answer, limit, first + 1)
  }

  predicate AnswerFits(q: Params, answer: Option<ConfReply>, limit: nat) {
    forall id | 1 <= id < END_OF_OPTIONS :: |AnswerOption(q, answer, limit, id)| <= limit
  }

  /** The record the answer is sent from. */
  function Own(q: Params, answer: Option<ConfReply>): ConfData {
    Agreed(Replied(NO_DATA.(params := Normal(q)), answer))
  }

  lemma OwnOption(q: Params, answer: Option<ConfReply>, before: nat, id: nat)
    requires IsOption(id)
    ensures OptionBytes(Own(q, answer).params, id) == AnswerOption(q, answer, AnswerMtu(q, answer, before), id)
  {
    hide LittleEndian, QosBytes, RetxBytes, ExtBytes, UpTo;
    OptionUpTo(q, END_OF_OPTIONS, id);
    MtuUpTo(q);
    assert OptionBytes(Normal(q), id) == OptionBytes(q, id);
  }

  lemma MtuUpTo(q: Params)
    ensures MTU in Normal(q).mask <==> MTU in q.mask
    ensures MTU in q.mask ==> Normal(q).mtu == q.mtu
  {
  }

  lemma {:induction false} OwnBytes(q: Params, answer: Option<ConfReply>, before: nat, first: nat)
    requires 1 <= first <= END_OF_OPTIONS
    ensures Encode(Own(q, answer).params, first, END_OF_OPTIONS) ==
      AnswerFrom(q, answer, AnswerMtu(q, answer, before), first)
    decreases END_OF_OPTIONS - first
  {
    hide Encode, OptionBytes, AnswerOption, AnswerMtu, Own;
    if first == END_OF_OPTIONS {
      EncodeEmpty(Own(q, answer).params, first);
    } else {
      EncodeFirst(Own(q, answer).params, first, END_OF_OPTIONS);
      OwnOption(q, answer, before, first);
      OwnBytes(q, answer, before, first + 1);
    }
  }

  lemma OwnFits(q: Params, answer: Option<ConfReply>, before: nat)
    ensures AnswerFits(q, answer, AnswerMtu(q, answer, before)) <==>
            AllFit(Own(q, answer).params, AnswerMtu(q, answer, before))
  {
    hide AnswerMtu, Own, AnswerOption, Payload, PayloadLen;
    forall id | 1 <= id < END_OF_OPTIONS
      ensures |AnswerOption(q, answer, AnswerMtu(q, answer, before), id)| ==
        if Present(Own(q, answer).params, id) then 2 + PayloadLen(id) else 0
    {
      OwnOption(q, answer, before, id);
    }
  }

  /** Messages of one answer: the blocks of its record, each but the last queued or sent and announcing more. */
  predicate AreAnswers(sent: seq<Event>, own: ConfData, limit: nat) {
    forall i :: 0 <= i < |sent| ==>
      && sent[i].RspSent? && sent[i].options == BlockOfTurn(own.params, limit, i)
      && sent[i].result == (if own.rejected == {} then RES_OK else RES_ERR_REJ)
      && (sent[i].more <==> AfterTurns(own.params, limit, i + 1) != END_OF_OPTIONS)
      && (i + 1 < |sent| ==> sent[i].more && sent[i].rc != 0)
  }

  /** What n messages, the last of them e, leave to send. */
  function Left(own: ConfData, limit: nat, n: nat, e: Event): Option<ConfData> {
    if e.RspSent? && e.more && e.rc != 0 then
      Some(own.(hasPending := true, startCmd := AfterTurns(own.params, limit, n)))
    else None
  }

  lemma FirstAnswer(c: Channel, flags: nat, q: Params, answer: Option<ConfReply>, stateBefore: State,
                    before: seq<Event>, mtuBefore: nat, rc: int, conf: ConfData, r: Outcome, reply: Reply)
    requires flags % 2 == 0 && r.code == Parsed && conf.(params := r.params) == NO_DATA.(params := Normal(q))
    requires c.Taken(conf, flags, r, reply, answer, false, stateBefore, before, mtuBefore, rc)
    ensures c.remoteMtu == AnswerMtu(q, answer, mtuBefore)
    ensures |c.log| == |before| + 1 && before <= c.log && c.log == before + [c.log[|before|]]
    ensures AreAnswers([c.log[|before|]], Own(q, answer), c.remoteMtu)
    ensures c.configureReq == Left(Own(q, answer), c.remoteMtu, 1, c.log[|before|])
  {
    hide Normal, BlockAt, NextStart, AfterTurns, BlockOfTurn;
    MtuUpTo(q);
    assert AfterTurns(Own(q, answer).params, c.remoteMtu, 0) == 1 by {
      NoTurn(Own(q, answer).params, c.remoteMtu);
    }
    TurnOf(Own(q, answer).params, 0, c.remoteMtu, 0);
  }

  lemma NoTurn(p: Params, limit: nat)
    ensures AfterTurns(p, limit, 0) == 1
  {
  }

  lemma NextAnswer(own: ConfData, limit: nat, sent: seq<Event>, conf: ConfData, rc: int)
    requires sent != [] && AreAnswers(sent, own, limit)
    requires Left(own, limit, |sent|, sent[|sent| - 1]) == Some(conf)
    ensures conf.hasPending && conf.startCmd <= MAX_WINDOW_SIZE
    ensures var e := RestOf(conf, limit, rc);
      && AreAnswers(sent + [e], own, limit)
      && Left(own, limit, |sent| + 1, e) ==
         if e.more && rc != 0 then Some(conf.(startCmd := NextStart(conf.params, conf.startCmd, limit))) else None
  {
    hide BlockAt, NextStart, AfterTurns, BlockOfTurn;
    StartInRange(own.params, limit, |sent|);
    assert sent[|sent| - 1].more;
    TurnOf(own.params, conf.startCmd, limit, |sent|);
  }

  lemma StartInRange(p: Params, limit: nat, n: nat)
    ensures 1 <= AfterTurns(p, limit, n) <= END_OF_OPTIONS && First(AfterTurns(p, limit, n)) == AfterTurns(p, limit, n)
  {
  }

  /** The peer's empty request, for which the next part of the answer goes out. */
  method AskForRest(c: Channel, stack: Stack, ghost own: ConfData, ghost sent: seq<Event>) returns (ghost e: Event)
    requires c.Valid() && TakesRequests(c.state) && sent != [] && AreAnswers(sent, own, c.remoteMtu)
    requires PendingIn(c.configureReq) && c.configureReq == Left(own, c.remoteMtu, |sent|, sent[|sent| - 1])
    modifies c
    ensures c.Valid() && c.remoteMtu == old(c.remoteMtu) && c.log == old(c.log) + [e]
    ensures AreAnswers(sent + [e], own, c.remoteMtu) && c.configureReq == Left(own, c.remoteMtu, |sent| + 1, e)
    ensures c.state == if IsFinishedPositive(e) then AfterFinishedPositive(old(c.state)) else old(c.state)
  {
    hide *;
    ghost var before, conf, rc := c.log, DataOf(c.configureReq), c.NextRc();
    IsPending(c.configureReq);
    NextAnswer(own, c.remoteMtu, sent, conf, rc);
    e := RestOf(conf, c.remoteMtu, rc);
    ghost var s := c.state;
    c.HandleConfigureReq(c.localCid, 0, 4, [], stack, None, false);
    WentOn(c, conf, before, old(c.remoteMtu), rc, s);
  }

  lemma IsPending(stored: Option<ConfData>)
    requires PendingIn(stored)
    ensures stored == Some(DataOf(stored))
  {
  }

  lemma WentOn(c: Channel, conf: ConfData, before: seq<Event>, mtuBefore: nat, rc: int, stateBefore: State)
    requires c.GoesOnWith(conf, before, mtuBefore, rc) && c.MovesOn(stateBefore, before, false)
    ensures conf.startCmd <= MAX_WINDOW_SIZE && c.remoteMtu == mtuBefore
    ensures var e := RestOf(conf, c.remoteMtu, rc);
      && c.log == before + [e]
      && c.configureReq == (if e.more && rc != 0
                            then Some(conf.(startCmd := NextStart(conf.params, conf.startCmd, c.remoteMtu))) else None)
      && c.state == if IsFinishedPositive(e) then AfterFinishedPositive(stateBefore) else stateBefore
  {
    hide AfterFinishedPositive, IsFinishedPositive, RestOf, NextStart;
  }

  /** A part of the peer's request that announces more: it is acknowledged, and its options are kept. */
  method TakeContinuedRequest(c: Channel, flags: nat, q: Params, room: nat, i: nat, stack: Stack)
    requires flags % 2 == 1
    requires c.Valid() && TakesRequests(c.state) && AllFit(q, room) && i < |AllBlocks(q, room)|
    requires DataOf(c.configureReq) == Arrived(q, room, i)
    modifies c
    ensures c.Valid() && c.remoteMtu == old(c.remoteMtu) && c.log == old(c.log) + [AckSent] && c.state == old(c.state)
    ensures DataOf(c.configureReq) == Arrived(q, room, i + 1)
  {
    hide *;
    var body := AllBlocks(q, room)[i];
    BlockCanBeTaken(c.configureReq, q, room, i, stack);
    ghost var s, before, mtu, rc := c.state, c.log, c.remoteMtu, c.NextRc();
    c.HandleConfigureReq(c.localCid, flags, 4 + |body|, body, stack, None, false);
    BlockTaken(c, flags, q, room, i, SecondPass(body, |body|, stack), s, before, mtu, rc);
  }

  /** Nothing is pending while the parts of a request come in, and each can be parsed. */
  lemma BlockCanBeTaken(stored: Option<ConfData>, q: Params, room: nat, i: nat, stack: Stack)
    requires AllFit(q, room) && i < |AllBlocks(q, room)| && DataOf(stored) == Arrived(q, room, i)
    ensures !PendingIn(stored)
    ensures var body := AllBlocks(q, room)[i];
      && Parse(body, |body|, DataOf(stored).params, true) == Outcome(Parsed, Arrived(q, room, i + 1).params, 0)
      && CanReply(body, |body|, DataOf(stored).params, stack)
  {
    hide Parse, AllFit, UpTo, SecondPass, Holds, Stored;
    BlockArrives(q, room, i);
  }

  lemma BlockTaken(c: Channel, flags: nat, q: Params, room: nat, i: nat, reply: Reply, s: State, before: seq<Event>,
                   mtu: nat, rc: int)
    requires flags % 2 == 1
    requires c.Taken(Arrived(q, room, i), flags, Outcome(Parsed, Arrived(q, room, i + 1).params, 0), reply, None,
                     false, s, before, mtu, rc)
    ensures c.remoteMtu == mtu && c.log == before + [AckSent] && c.state == s
    ensures DataOf(c.configureReq) == Arrived(q, room, i + 1)
  {
    hide UpTo, AfterTurns;
  }

  /** The last part of the request: the client answers, and the first part of the answer goes out. */
  method TakeLastRequest(c: Channel, flags: nat, q: Params, room: nat, stack: Stack,
                         answer: Option<ConfReply>)
    returns (ghost e: Event)
    requires flags % 2 == 0
    requires c.Valid() && TakesRequests(c.state) && AllFit(q, room)
    requires DataOf(c.configureReq) == Arrived(q, room, |AllBlocks(q, room)| - 1)
    modifies c
    ensures c.Valid() && c.remoteMtu == AnswerMtu(q, answer, old(c.remoteMtu)) && c.log == old(c.log) + [e]
    ensures AreAnswers([e], Own(q, answer), c.remoteMtu)
    ensures c.configureReq == Left(Own(q, answer), c.remoteMtu, 1, e)
    ensures c.state == if IsFinishedPositive(e) then AfterFinishedPositive(old(c.state)) else old(c.state)
  {
    hide *;
    var i := |AllBlocks(q, room)| - 1;
    var body := AllBlocks(q, room)[i];
    BlockCanBeTaken(c.configureReq, q, room, i, stack);
    ghost var s, before, mtu, rc := c.state, c.log, c.remoteMtu, c.NextRc();
    c.HandleConfigureReq(c.localCid, flags, 4 + |body|, body, stack, answer, false);
    LastTaken(q, room);
    FirstAnswer(c, flags, q, answer, s, before, mtu, rc, Arrived(q, room, i),
                Outcome(Parsed, Arrived(q, room, i + 1).params, 0), SecondPass(body, |body|, stack));
    e := c.log[|before|];
    HasMoved(c, s, before, e);
  }

  lemma LastTaken(q: Params, room: nat)
    requires AllFit(q, room)
    ensures var n := |AllBlocks(q, room)|;
      Arrived(q, room, n - 1).(params := Arrived(q, room, n).params) == NO_DATA.(params := Normal(q))
  {
    hide UpTo, AfterTurns, AllBlocks;
    AllArrived(q, room);
  }

  lemma HasMoved(c: Channel, s: State, before: seq<Event>, e: Event)
    requires c.MovesOn(s, before, false) && c.log == before + [e]
    ensures c.state == if IsFinishedPositive(e) then AfterFinishedPositive(s) else s
  {
    hide IsFinishedPositive, AfterFinishedPositive;
  }

  /** The options of a row of messages, put together. */
  function OptionsOf(sent: seq<Event>): seq<byte> {
    if sent == [] then []
    else
      var e := sent[|sent| - 1];
      OptionsOf(sent[..|sent| - 1]) + if e.RspSent? then e.options else []
  }

  lemma {:induction false} AnswersJoin(sent: seq<Event>, own: ConfData, limit: nat)
    requires AreAnswers(sent, own, limit)
    ensures OptionsOf(sent) == Encode(own.params, 1, AfterTurns(own.params, limit, |sent|))
  {
    hide Encode, AfterTurns, BlockOfTurn;
    if sent == [] {
      NoTurn(own.params, limit);
      EncodeEmpty(own.params, 1);
    } else {
      var n := |sent| - 1;
      AnswersJoin(sent[..n], own, limit);
      TurnsJoin(own.params, limit, n);
    }
  }

  /** The answer as the peer receives it: with the last message finished, its options are exactly those of the
      answer; one that was only queued cuts it short. */
  predicate IsAnswerTo(sent: seq<Event>, q: Params, answer: Option<ConfReply>, limit: nat) {
    && sent != []
    && (forall i :: 0 <= i < |sent| ==>
          && sent[i].RspSent? && |sent[i].options| <= limit
          && sent[i].result == (if answer.None? || answer.value.rejected == {} then RES_OK else RES_ERR_REJ)
          && (i + 1 < |sent| ==> sent[i].more && sent[i].rc != 0))
    && OptionsOf(sent) <= AnswerFrom(q, answer, limit, 1)
    && if sent[|sent| - 1].more then sent[|sent| - 1].rc == 0 else OptionsOf(sent) == AnswerFrom(q, answer, limit, 1)
  }

  lemma AnswersAreTo(sent: seq<Event>, q: Params, answer: Option<ConfReply>, before: nat)
    requires sent != [] && AreAnswers(sent, Own(q, answer), AnswerMtu(q, answer, before))
    requires Left(Own(q, answer), AnswerMtu(q, answer, before), |sent|, sent[|sent| - 1]) == None
    ensures IsAnswerTo(sent, q, answer, AnswerMtu(q, answer, before))
  {
    hide Own, AnswerMtu, AnswerFrom, OptionsOf, AreAnswers, AfterTurns;
    var own, limit := Own(q, answer), AnswerMtu(q, answer, before);
    RejectedIf(q, answer);
    forall i | 0 <= i < |sent|
      ensures sent[i].RspSent? && |sent[i].options| <= limit && (i + 1 < |sent| ==> sent[i].more && sent[i].rc != 0)
      ensures sent[i].result == if own.rejected == {} then RES_OK else RES_ERR_REJ
    {
      OneAnswer(sent, own, limit, i);
    }
    AnswersInFull(sent, own, limit);
    OwnBytes(q, answer, before, 1);
  }

  lemma RejectedIf(q: Params, answer: Option<ConfReply>)
    ensures Own(q, answer).rejected == if answer.Some? then answer.value.rejected else {}
  {
    hide UpTo, SetReply;
  }

  lemma OneAnswer(sent: seq<Event>, own: ConfData, limit: nat, i: nat)
    requires AreAnswers(sent, own, limit) && i < |sent|
    ensures sent[i].RspSent? && |sent[i].options| <= limit && (i + 1 < |sent| ==> sent[i].more && sent[i].rc != 0)
    ensures sent[i].result == if own.rejected == {} then RES_OK else RES_ERR_REJ
  {
    hide BlockOfTurn, AfterTurns;
    TurnFits(own.params, limit, i);
  }

  /** All of the record if the last message announces no more, and the beginning of it in any case. */
  lemma AnswersInFull(sent: seq<Event>, own: ConfData, limit: nat)
    requires sent != [] && AreAnswers(sent, own, limit)
    ensures OptionsOf(sent) <= Encode(own.params, 1, END_OF_OPTIONS)
    ensures sent[|sent| - 1].RspSent?
    ensures !sent[|sent| - 1].more ==> OptionsOf(sent) == Encode(own.params, 1, END_OF_OPTIONS)
  {
    hide Encode, AfterTurns, BlockOfTurn, OptionsOf;
    AnswersJoin(sent, own, limit);
    StartInRange(own.params, limit, |sent|);
    EncodeSplits(own.params, 1, AfterTurns(own.params, limit, |sent|), END_OF_OPTIONS);
    EncodeEmpty(own.params, END_OF_OPTIONS);
  }

  /** An answer with an option that does not fit is never finished, however often the peer asks for more. */
  lemma OversizeAnswer(sent: seq<Event>, own: ConfData, limit: nat)
    requires AreAnswers(sent, own, limit) && !AllFit(own.params, limit)
    ensures forall i :: 0 <= i < |sent| ==> sent[i].more
  {
    LoopEndsIffAllFit(own.params, limit);
    hide AllFit, AfterTurns, BlockOfTurn;
  }

  lemma TurnFits(p: Params, limit: nat, n: nat)
    ensures |BlockOfTurn(p, limit, n)| <= limit
  {
    hide Encode, Stop;
    var start := AfterTurns(p, limit, n);
    if start == END_OF_OPTIONS {
      EncodeEmpty(p, start);
    } else {
      BlockLength(p, start, limit);
    }
  }

  lemma MoreIsLeft(sent: seq<Event>, own: ConfData, limit: nat)
    requires sent != [] && AreAnswers(sent, own, limit) && AllFit(own.params, limit)
    requires PendingIn(Left(own, limit, |sent|, sent[|sent| - 1]))
    ensures |sent| < END_OF_OPTIONS && !IsFinishedPositive(sent[|sent| - 1])
  {
    hide AllFit, BlockOfTurn, AfterTurns;
    StartGrows(own.params, limit, |sent|);
  }

  lemma NothingLeft(stored: Option<ConfData>, own: ConfData, limit: nat, n: nat, e: Event)
    requires stored == Left(own, limit, n, e) && !PendingIn(stored)
    ensures stored == None
  {
  }

  function Acks(n: nat): seq<Event> {
    seq(n, _ => AckSent)
  }

  lemma OneMoreAck(before: seq<Event>, n: nat)
    ensures before + Acks(0) == before
    ensures before + Acks(n) + [AckSent] == before + Acks(n + 1)
  {
  }

  /** A request of the peer's in blocks of any size that its options fit, the last of them told by the lowest flag, and
      its empty requests for as long as the answer announces more. If every option of the answer fits the MTU, the
      messages of the answer carry its options in order, each once, and the last one is finished, or the first one
      whose send returned 0. */
  method TakeRequest(c: Channel, continued: nat, last: nat, q: Params, room: nat, stack: Stack,
                     answer: Option<ConfReply>)
    returns (ghost sent: seq<Event>)
    requires continued % 2 == 1 && last % 2 == 0
    requires c.Valid() && TakesRequests(c.state) && c.configureReq == None && AllFit(q, room)
    requires AnswerFits(q, answer, AnswerMtu(q, answer, c.remoteMtu))
    modifies c
    ensures c.Valid() && c.configureReq == None && c.remoteMtu == AnswerMtu(q, answer, old(c.remoteMtu))
    ensures c.log == old(c.log) + Acks(|AllBlocks(q, room)| - 1) + sent
    ensures IsAnswerTo(sent, q, answer, c.remoteMtu)
    ensures c.state == if IsFinishedPositive(sent[|sent| - 1]) then AfterFinishedPositive(old(c.state))
                       else old(c.state)
  {
    hide *;
    TakeContinuedRequests(c, continued, q, room, stack);
    ghost var start, own := c.log, Own(q, answer);
    OwnFits(q, answer, c.remoteMtu);
    ghost var e := TakeLastRequest(c, last, q, room, stack, answer);
    sent := [e];
    while PendingIn(c.configureReq)
      invariant c.Valid() && sent != [] && c.log == start + sent
      invariant c.remoteMtu == AnswerMtu(q, answer, old(c.remoteMtu)) && AreAnswers(sent, own, c.remoteMtu)
      invariant c.configureReq == Left(own, c.remoteMtu, |sent|, sent[|sent| - 1])
      invariant c.state == if IsFinishedPositive(sent[|sent| - 1]) then AfterFinishedPositive(old(c.state))
                           else old(c.state)
      decreases END_OF_OPTIONS - |sent|
    {
      MoreIsLeft(sent, own, c.remoteMtu);
      e := AskForRest(c, stack, own, sent);
      sent := sent + [e];
    }
    NothingLeft(c.configureReq, own, c.remoteMtu, |sent|, sent[|sent| - 1]);
    AnswersAreTo(sent, q, answer, old(c.remoteMtu));
  }

  /** All parts of the request but the last. */
  method TakeContinuedRequests(c: Channel, flags: nat, q: Params, room: nat, stack: Stack)
    requires flags % 2 == 1
    requires c.Valid() && TakesRequests(c.state) && c.configureReq == None && AllFit(q, room)
    modifies c
    ensures c.Valid() && c.state == old(c.state) && c.remoteMtu == old(c.remoteMtu)
    ensures c.log == old(c.log) + Acks(|AllBlocks(q, room)| - 1)
    ensures DataOf(c.configureReq) == Arrived(q, room, |AllBlocks(q, room)| - 1)
  {
    hide *;
    var n := |AllBlocks(q, room)| - 1;
    var i := 0;
    NothingArrived(q, room);
    OneMoreAck(c.log, 0);
    while i < n
      invariant 0 <= i <= n && c.Valid() && c.state == old(c.state) && c.remoteMtu == old(c.remoteMtu)
      invariant c.log == old(c.log) + Acks(i) && DataOf(c.configureReq) == Arrived(q, room, i)
    {
      TakeContinuedRequest(c, flags, q, room, i, stack);
      OneMoreAck(old(c.log), i);
      i := i + 1;
    }
  }

  // ----- which responses are taken (l2cap.c:162-208, 674-682, 1253-1281) -----

  /** A connection is made: the peer answers the request that was just sent, and nothing new is outstanding. */
  method Connect(c: Channel, newCid: nat, remote: nat)
    requires c.Valid() && Rank(c.state) <= Rank(WAIT_CONNECT) && c.NextRc() >= 0 && c.expectedCount < 255
    modifies c
    ensures c.Valid() && c.state == WAIT_CONFIG && c.localCid == newCid && c.remoteCid == remote
    ensures c.log == old(c.log) + [ConnReqSent, Connected] && c.expectedCount == old(c.expectedCount)
  {
    hide FactsOf, Means, NextId;
    var ok := c.ConnectionRequest(newCid);
    Dispatch(c, c.lastSignalId, ConnRsp(true, remote, newCid, CONN_RES_OK));
  }

  /** The responses of a peer to the n messages of a request whose ids follow `first`: all but the last announce more,
      as the messages did. */
  method AcknowledgeParts(c: Channel, first: byte, n: nat)
    requires c.Valid() && 0 < n < 255 && c.expectedCode == SIGNAL_CONFIG_RSP && c.expectedId == IdAfter(first, n)
    modifies c
    ensures ViewOf(c) == old(ViewOf(c)) && c.Valid() && c.log == old(c.log)
  {
    hide FactsOf, Means, AddsOnHandling, Handled, IsTaken, AwaitedAfter, IdAfter;
    var i := 1;
    while i < n
      invariant 1 <= i <= n && ViewOf(c) == old(ViewOf(c)) && c.Valid() && c.log == old(c.log)
    {
      OtherId(first, i, n);
      Dispatch(c, IdAfter(first, i), ConfigRsp(true, 1, RES_OK, 6, [], false));
      i := i + 1;
    }
  }

  lemma OtherId(first: byte, i: nat, n: nat)
    requires 1 <= i < n < 255
    ensures IdAfter(first, i) != IdAfter(first, n)
  {
    IdIs(first, i);
    IdIs(first, n);
  }

  lemma FewMessages(sent: seq<Event>, p: Params, limit: nat, reconfigure: bool)
    requires sent != [] && AreRequests(sent, p, limit, reconfigure) && AfterTurns(p, limit, |sent|) == END_OF_OPTIONS
    ensures AllFit(p, limit) && |sent| == |AllBlocks(p, limit)| <= 7
  {
    hide AllFit, Blocks, AreRequests, AfterTurns, Concat, Encode;
    FinishedIsWhole(sent, p, limit, reconfigure);
    BlocksConcatenate(p, 1, limit);
  }

  /** A request that goes out whole. The peer acknowledges all its messages but the last, which the channel ignores: as
      many responses are expected as messages were sent, and only the one with the last id can be taken. */
  method RequestSent(c: Channel, p: Params) returns (ok: bool)
    requires c.Valid() && MayConfigure(c.state) && c.expectedCount == 0
    modifies c
    ensures c.Valid() && c.state == AfterRequest(old(c.state)) && c.remoteMtu == old(c.remoteMtu)
    ensures c.configureResp == old(c.configureResp) && (ok ==> AllFit(p, c.remoteMtu))
    ensures ok ==>
      var n := |AllBlocks(p, c.remoteMtu)|;
      n <= 7 && c.Expects() == Awaited(SIGNAL_CONFIG_RSP, IdAfter(old(c.lastSignalId), n), n)
  {
    hide FactsOf, Means, AreRequests, AfterRequest, AfterTurns, AllFit, IsQueued, IdAfter, AllBlocks;
    ghost var sent;
    ghost var reconfigure := c.state == OPEN;
    var first := c.lastSignalId;
    ok, sent := c.Configure(p);
    if ok {
      FewMessages(sent, p, c.remoteMtu, reconfigure);
      AcknowledgeParts(c, first, |AllBlocks(p, c.remoteMtu)|);
    }
  }

  /** A request of n messages that the peer agrees to: n - 1 responses stay outstanding, and so the next request is
      made exactly if n is 1. */
  method ConfigureTwice(c: Channel, p: Params, again: Params) returns (ok: bool, ghost sent: seq<Event>)
    requires c.Valid() && c.state == WAIT_SEND_CONFIG && c.expectedCount == 0
    modifies c
    ensures c.Valid() && (ok ==> AllFit(p, c.remoteMtu))
    ensures ok ==> (sent != [] <==> |AllBlocks(p, c.remoteMtu)| == 1)
    ensures ok && |AllBlocks(p, c.remoteMtu)| > 1 ==>
      c.state == OPEN && c.expectedCount == |AllBlocks(p, c.remoteMtu)| - 1
  {
    hide FactsOf, Means, AreRequests, AllFit, AllBlocks, Stored, AfterTurns, IsQueued, IdAfter, AddsOnHandling;
    sent := [];
    ok := RequestSent(c, p);
    if ok {
      Dispatch(c, c.expectedId, ConfigRsp(true, 0, RES_OK, 6, [], false));
      var _, messages := c.Configure(again);
      sent := messages;
    }
  }

  /** A request of n messages to which the peer answers with a response that announces more. The channel asks for the
      rest exactly if n is 2. With one message nothing is outstanding any more: whatever response comes, the channel
      goes on waiting for one. */
  method MoreIsAnnounced(c: Channel, p: Params, body: seq<byte>, id: nat, r: Response)
    returns (ok: bool, ghost asked: seq<Event>)
    requires c.Valid() && MayConfigure(c.state) && c.expectedCount == 0
    modifies c
    ensures c.Valid() && (ok ==> AllFit(p, c.remoteMtu))
    ensures ok ==> (asked != [] <==> |AllBlocks(p, c.remoteMtu)| == 2)
    ensures forall i :: 0 <= i < |asked| ==> asked[i].ReqSent? && asked[i].options == []
    ensures ok && |AllBlocks(p, c.remoteMtu)| == 1 ==> TakesResponses(c.state) && c.expectedCount == 0
  {
    hide FactsOf, Means, AllFit, AllBlocks, Stored, IdAfter;
    asked := [];
    ok := RequestSent(c, p);
    if ok {
      ghost var before := c.log;
      Dispatch(c, c.expectedId, ConfigRsp(true, 1, RES_OK, 6 + |body|, body, false));
      asked := c.log[|before| + 1..];
      if c.expectedCount == 0 {
        Dispatch(c, id, r);
      }
    }
  }
}
