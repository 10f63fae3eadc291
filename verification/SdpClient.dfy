/** The SDP client: requests, and replies that come in several parts (section 4.3 of Vol 3 Part B of the
    Bluetooth Core specification; services/sdp.c:65-86, 159-171, 671-899, 948-1129). */
module SdpClient {
  import opened Prelude
  import opened Bytes
  import opened ByteArrays
  import opened SdpElement

  const ERROR_RSP: byte := 0x01
  const SERVICE_SEARCH: byte := 0x02
  const SERVICE_ATTR: byte := 0x04
  const SERVICE_SEARCH_ATTR: byte := 0x06
  const ERROR_PARSER: u16 := 0xffff

  /** A packet: opcode, transaction id and parameters. */
  datatype Pdu = Pdu(opcode: byte, id: u16, params: seq<byte>)

  datatype Callback =
    | AttrReply(error: u16, list: Option<seq<byte>>)
    | SearchReply(error: u16, total: u16, count: u16, hasMore: bool, handles: seq<u32>)

  /** The outstanding request, how many of its parameters come before the continuation state, and the part
      of the attribute list received so far. */
  datatype State = State(last: Option<Pdu>, offset: nat, partial: Option<seq<byte>>, nextId: nat)

  predicate Ready(s: State) {
    s.last.Some? ==>
      && s.last.value.opcode in {SERVICE_SEARCH, SERVICE_ATTR, SERVICE_SEARCH_ATTR}
      && s.offset <= |s.last.value.params| && s.offset + 17 < 0x1_0000
      && (s.partial.Some? ==>
            HeaderFits(s.partial.value) && |s.partial.value| <= DeclaredSize(s.partial.value) < 0x1_0000)
  }

  // ----- what a reply says -----

  function BigWord(s: seq<byte>, at: nat): (v: u16)
    requires at + 2 <= |s|
  {
    var high: int, low: int := s[at], s[at + 1];
    high * 0x100 + low
  }

  /** The size an element's header declares, in 32 bits as the accessor returns it. */
  function DeclaredSize(de: seq<byte>): (n: nat)
    requires HeaderFits(de)
  {
    TotalSize(de) % 0x1_0000_0000
  }

  datatype Parsed =
    | Bad
    | More(partial: seq<byte>, cont: seq<byte>)
    | Complete(list: seq<byte>)

  /** The continuation state at the end of a reply, if it is one. */
  function ContState(rest: seq<byte>): (cont: Option<seq<byte>>)
    ensures cont.Some? ==> cont.value != []
  {
    if rest == [] then None
    else
      var len := 1 + rest[0] as nat;
      if len > 17 || len > |rest| then None else Some(rest[..len])
  }

  /** The parts of a reply lie inside it, and the first one holds the header of the list. */
  predicate Framed(partial: Option<seq<byte>>, params: seq<byte>) {
    |params| >= 3 ==>
      var n := BigWord(params, 0);
      n + 3 <= |params| && (partial == None ==> HeaderFits(params[2..2 + n]))
  }

  function ParseAttr(partial: Option<seq<byte>>, params: seq<byte>): Parsed
    requires Framed(partial, params) && (partial.Some? ==> HeaderFits(partial.value))
  {
    if |params| < 3 then Bad
    else
      var n := BigWord(params, 0);
      var chunk, cont := params[2..2 + n], ContState(params[2 + n..]);
      if cont == None then Bad
      else
        var final := cont.value[0] == 0;
        if final && partial == None then
          if |chunk| == DeclaredSize(chunk) then Complete(chunk) else Bad
        else
          var total := DeclaredSize(if partial.Some? then partial.value else chunk);
          if partial == None && total >= 0x1_0000 then Bad
          else
            var all := (if partial.Some? then partial.value else []) + chunk;
            if |all| > total || (final && |all| != total) then Bad
            else if final then Complete(all)
            else More(all, cont.value)
  }

  /** The record handles of a search reply, in host order. */
  function HandlesIn(s: seq<byte>): (handles: seq<u32>)
    requires |s| % 4 == 0
    ensures |handles| == |s| / 4
  {
    if s == [] then [] else [BigLong(s, 0)] + HandlesIn(s[4..])
  }

  function BigLong(s: seq<byte>, at: nat): (v: u32)
    requires at + 4 <= |s|
  {
    var a: int, b: int, c: int, d: int := s[at], s[at + 1], s[at + 2], s[at + 3];
    a * 0x100_0000 + b * 0x1_0000 + c * 0x100 + d
  }

  datatype ParsedSearch = NoSearch | Search(total: u16, count: u16, handles: seq<u32>, cont: seq<byte>)

  function ParseSearch(params: seq<byte>): ParsedSearch {
    if |params| < 4 then NoSearch
    else
      var count := BigWord(params, 2);
      if |params| - 4 < count * 4 then NoSearch
      else
        var cont := ContState(params[4 + count * 4..]);
        if cont == None then NoSearch
        else Search(BigWord(params, 0), count, HandlesIn(params[4..4 + count * 4]), cont.value)
  }

  // ----- one message -----

  /** A message that answers the outstanding request. */
  predicate Answers(s: State, m: Pdu) {
    s.last.Some? && m.id == s.last.value.id && (m.opcode == s.last.value.opcode + 1 || m.opcode == ERROR_RSP)
  }

  predicate Understandable(s: State, m: Pdu) {
    Answers(s, m) ==>
      && (m.opcode == ERROR_RSP ==> |m.params| >= 2)
      && (m.opcode != ERROR_RSP && s.last.value.opcode != SERVICE_SEARCH ==> Framed(s.partial, m.params))
  }

  /** Asks again for the same thing, from where the reply left off. `created` tells whether there was
      memory for the request. */
  function AskOn(s: State, cont: seq<byte>, created: bool): State
    requires s.last.Some? && s.offset <= |s.last.value.params|
  {
    if created then
      var again := Pdu(s.last.value.opcode, s.nextId % 0x1_0000, s.last.value.params[..s.offset] + cont);
      s.(last := Some(again), nextId := s.nextId + 1)
    else s.(nextId := s.nextId + 1)
  }

  /** What a message does to the client, and what the client calls because of it. `wants` is the answer of
      the client's search callback. */
  function Handle(s: State, m: Pdu, wants: bool, created: bool): (r: (State, seq<Callback>))
    requires Ready(s) && Understandable(s, m)
  {
    if !Answers(s, m) then (s, [])
    else
      var error := if m.opcode == ERROR_RSP then BigWord(m.params, 0) else 0;
      if m.opcode == ERROR_RSP && error == 0 then (s, [])
      else if s.last.value.opcode == SERVICE_SEARCH then
        match if error != 0 then NoSearch else ParseSearch(m.params)
        case NoSearch =>
          (s.(last := None), [SearchReply(if error != 0 then error else ERROR_PARSER, 0, 0, false, [])])
        case Search(total, count, handles, cont) =>
          var more := cont != [] && cont[0] != 0;
          (if more && wants then AskOn(s, cont, created) else s.(last := None),
           [SearchReply(0, total, count, more, handles)])
      else
        match if error != 0 then Bad else ParseAttr(s.partial, m.params)
        case Bad => (s.(last := None), [AttrReply(if error != 0 then error else ERROR_PARSER, None)])
        case Complete(list) => (s.(last := None), [AttrReply(0, Some(list))])
        case More(partial, cont) => (AskOn(s.(partial := Some(partial)), cont, created), [])
  }

  /** The header of an element is in its first bytes. */
  lemma DeclaredByFront(a: seq<byte>, b: seq<byte>)
    requires HeaderFits(a)
    ensures HeaderFits(a + b) && DeclaredSize(a + b) == DeclaredSize(a)
  {
    hide FromBigEndian;
    assert (a + b)[1..HeaderSize(a)] == a[1..HeaderSize(a)];
  }

  lemma ParseStaysBelow(partial: Option<seq<byte>>, params: seq<byte>)
    requires Framed(partial, params) && (partial.Some? ==> HeaderFits(partial.value))
    requires partial.Some? ==> DeclaredSize(partial.value) < 0x1_0000
    ensures
      var r := ParseAttr(partial, params);
      r.More? ==> HeaderFits(r.partial) && |r.partial| <= DeclaredSize(r.partial) < 0x1_0000 && 1 <= |r.cont| <= 17
  {
    hide DeclaredSize, HeaderFits;
    if |params| >= 3 {
      var chunk := params[2..2 + BigWord(params, 0)];
      if partial.Some? {
        DeclaredByFront(partial.value, chunk);
      } else {
        assert [] + chunk == chunk;
      }
    }
  }

  /** The client stays in a state its methods can work with. */
  lemma HandleStaysReady(s: State, m: Pdu, wants: bool, created: bool)
    requires Ready(s) && Understandable(s, m)
    ensures Ready(Handle(s, m, wants, created).0)
  {
    hide ParseAttr, DeclaredSize, HeaderFits, ParseSearch, Framed;
    if Answers(s, m) && m.opcode != ERROR_RSP && s.last.value.opcode != SERVICE_SEARCH {
      ParseStaysBelow(s.partial, m.params);
    }
  }

  /** A message with another transaction id or opcode changes nothing. */
  lemma StrangersChangeNothing(s: State, m: Pdu, wants: bool, created: bool)
    requires Ready(s)
    requires s.last == None || m.id != s.last.value.id || (m.opcode != s.last.value.opcode + 1 && m.opcode != ERROR_RSP)
    ensures Understandable(s, m) && Handle(s, m, wants, created) == (s, [])
  {
  }

  // ----- a whole answer -----

  /** A part of an attribute list, the continuation state that follows it, and how many transaction ids other
      clients have taken by the time it arrives: all clients draw from one counter. */
  datatype Part = Part(chunk: seq<byte>, cont: seq<byte>, others: nat)

  function TakenByOthers(s: State, n: nat): State {
    s.(nextId := s.nextId + n)
  }

  function AllOthers(parts: seq<Part>): nat {
    if parts == [] then 0 else parts[0].others + AllOthers(parts[1..])
  }

  predicate IsPart(p: Part) {
    |p.chunk| < 0x1_0000 && p.cont != [] && |p.cont| == 1 + p.cont[0] as nat <= 17
  }

  /** Every part but the last asks to be continued. */
  predicate IsAnswer(parts: seq<Part>) {
    && parts != []
    && (forall i :: 0 <= i < |parts| ==> IsPart(parts[i]))
    && (forall i :: 0 <= i < |parts| ==> (parts[i].cont[0] == 0 <==> i == |parts| - 1))
  }

  function AllChunks(parts: seq<Part>): seq<byte> {
    if parts == [] then [] else parts[0].chunk + AllChunks(parts[1..])
  }

  function Params(p: Part): (params: seq<byte>)
    requires |p.chunk| < 0x1_0000
  {
    [|p.chunk| / 0x100, |p.chunk| % 0x100] + p.chunk + p.cont
  }

  function ReplyTo(s: State, p: Part): Pdu
    requires Ready(s) && s.last.Some? && |p.chunk| < 0x1_0000
  {
    Pdu(s.last.value.opcode + 1, s.last.value.id, Params(p))
  }

  /** The server answers the outstanding request part by part, each time with the transaction id of the
      request it answers. */
  function Converse(s: State, parts: seq<Part>): (r: (State, seq<Callback>))
    requires Ready(s) && (parts != [] && s.last.Some? && s.partial == None ==> HeaderFits(parts[0].chunk))
    requires forall i :: 0 <= i < |parts| ==> IsPart(parts[i])
    decreases |parts|
  {
    if parts == [] || s.last == None || s.last.value.opcode == SERVICE_SEARCH then (s, [])
    else
      PartSays(parts[0]);
      var m := ReplyTo(s, parts[0]);
      assert IsPart(parts[0]);
      HandleStaysReady(TakenByOthers(s, parts[0].others), m, false, true);
      MoreMeansPartial(TakenByOthers(s, parts[0].others), m);
      var one := Handle(TakenByOthers(s, parts[0].others), m, false, true);
      var rest := Converse(one.0, parts[1..]);
      (rest.0, one.1 + rest.1)
  }

  lemma PartSays(p: Part)
    requires IsPart(p)
    ensures
      var params := Params(p);
      && |params| >= 3 && BigWord(params, 0) == |p.chunk| && |p.chunk| + 3 <= |params|
      && params[2..2 + |p.chunk|] == p.chunk && params[2 + |p.chunk|..] == p.cont
      && ContState(p.cont) == Some(p.cont)
  {
    assert p.cont[..|p.cont|] == p.cont;
  }

  lemma MoreMeansPartial(s: State, m: Pdu)
    requires Ready(s) && Understandable(s, m) && Answers(s, m) && m.opcode != ERROR_RSP
    requires s.last.value.opcode != SERVICE_SEARCH
    ensures
      var r := Handle(s, m, false, true).0;
      r.last == None || (r.partial.Some? && HeaderFits(r.partial.value))
  {
    hide ParseAttr, DeclaredSize, HeaderFits, Framed;
    ParseStaysBelow(s.partial, m.params);
  }

  /** What the client is told: the list, or that the parts do not make up what the header declared. */
  function Verdict(declared: nat, all: seq<byte>): Callback {
    if |all| == declared then AttrReply(0, Some(all)) else AttrReply(ERROR_PARSER, None)
  }

  predicate Waits(s: State) {
    Ready(s) && s.last.Some? && s.last.value.opcode != SERVICE_SEARCH
  }

  /** One part after the first. */
  lemma NextPart(s: State, p: Part)
    requires Waits(s) && s.partial.Some? && IsPart(p)
    ensures Understandable(s, ReplyTo(s, p)) && DeclaredSize(s.partial.value) < 0x1_0000
    ensures
      var all, declared := s.partial.value + p.chunk, DeclaredSize(s.partial.value);
      Handle(s, ReplyTo(s, p), false, true) ==
      if |all| > declared then (s.(last := None), [AttrReply(ERROR_PARSER, None)])
      else if p.cont[0] == 0 then (s.(last := None), [Verdict(declared, all)])
      else (AskOn(s.(partial := Some(all)), p.cont, true), [])
  {
    hide DeclaredSize, HeaderFits, Params;
    PartSays(p);
  }

  lemma {:induction false} RestOfAnswer(s: State, parts: seq<Part>)
    requires Waits(s) && s.partial.Some? && IsAnswer(parts)
    ensures Converse(s, parts).0.last == None
    ensures Converse(s, parts).1 == [Verdict(DeclaredSize(s.partial.value), s.partial.value + AllChunks(parts))]
    decreases |parts|
  {
    hide DeclaredSize, HeaderFits, Handle, Converse;
    var p, later := parts[0], parts[1..];
    var all, declared := s.partial.value + p.chunk, DeclaredSize(s.partial.value);
    var now := TakenByOthers(s, p.others);
    assert IsPart(p);
    NextPart(now, p);
    ConverseStep(s, parts);
    var one := Handle(now, ReplyTo(s, p), false, true);
    assert s.partial.value + (p.chunk + AllChunks(later)) == all + AllChunks(later);
    if |all| > declared {
      ConverseIdle(one.0, later);
    } else if p.cont[0] == 0 {
      assert later == [];
      assert all + [] == all;
      ConverseIdle(one.0, later);
    } else {
      DeclaredByFront(s.partial.value, p.chunk);
      RestOfAnswer(one.0, later);
    }
  }

  lemma ConverseIdle(s: State, parts: seq<Part>)
    requires Ready(s) && s.last == None && forall i :: 0 <= i < |parts| ==> IsPart(parts[i])
    ensures Converse(s, parts) == (s, [])
  {
  }

  lemma ConverseStep(s: State, parts: seq<Part>)
    requires Waits(s) && parts != [] && (s.partial == None ==> HeaderFits(parts[0].chunk))
    requires forall i :: 0 <= i < |parts| ==> IsPart(parts[i])
    requires IsPart(parts[0])
    ensures Waits(TakenByOthers(s, parts[0].others)) &&
      ReplyTo(TakenByOthers(s, parts[0].others), parts[0]) == ReplyTo(s, parts[0])
    ensures Understandable(TakenByOthers(s, parts[0].others), ReplyTo(s, parts[0]))
    ensures
      var one := Handle(TakenByOthers(s, parts[0].others), ReplyTo(s, parts[0]), false, true);
      && Ready(one.0) && (one.0.last.Some? && one.0.partial == None && |parts| > 1 ==> HeaderFits(parts[1].chunk))
      && Converse(s, parts) == (Converse(one.0, parts[1..]).0, one.1 + Converse(one.0, parts[1..]).1)
  {
    hide Handle;
    var p := parts[0];
    var now := TakenByOthers(s, p.others);
    assert IsPart(p);
    PartSays(p);
    HandleStaysReady(now, ReplyTo(s, p), false, true);
    MoreMeansPartial(now, ReplyTo(s, p));
  }

  /** The first part, which brings the header. */
  lemma FirstPart(s: State, p: Part)
    requires Waits(s) && s.partial == None && IsPart(p) && HeaderFits(p.chunk)
    ensures Understandable(s, ReplyTo(s, p))
    ensures
      var declared := DeclaredSize(p.chunk);
      Handle(s, ReplyTo(s, p), false, true) ==
      if p.cont[0] == 0 then (s.(last := None), [Verdict(declared, p.chunk)])
      else if declared >= 0x1_0000 || |p.chunk| > declared then (s.(last := None), [AttrReply(ERROR_PARSER, None)])
      else (AskOn(s.(partial := Some(p.chunk)), p.cont, true), [])
  {
    hide DeclaredSize, HeaderFits, Params;
    PartSays(p);
    assert [] + p.chunk == p.chunk;
  }

  /** For every split of a list of less than 64 KiB whose first part holds the header, the client is called
      exactly once, after the last part: with exactly the bytes the server sent if they are as many as the
      header declared, and with one parser error otherwise. */
  lemma AnswerArrivesOnce(s: State, parts: seq<Part>)
    requires Waits(s) && s.partial == None && IsAnswer(parts) && HeaderFits(parts[0].chunk)
    requires |AllChunks(parts)| < 0x1_0000
    ensures Converse(s, parts).0.last == None
    ensures Converse(s, parts).1 == [Verdict(DeclaredSize(parts[0].chunk), AllChunks(parts))]
  {
    hide DeclaredSize, HeaderFits, Handle, Converse;
    var p, later := parts[0], parts[1..];
    var declared := DeclaredSize(p.chunk);
    assert IsPart(p);
    var now := TakenByOthers(s, p.others);
    FirstPart(now, p);
    ConverseStep(s, parts);
    var one := Handle(now, ReplyTo(s, p), false, true);
    if p.cont[0] == 0 {
      assert later == [];
      assert p.chunk + [] == p.chunk;
      ConverseIdle(one.0, later);
    } else if declared >= 0x1_0000 || |p.chunk| > declared {
      ConverseIdle(one.0, later);
    } else {
      RestOfAnswer(one.0, later);
    }
  }

  /** Through any number of rounds the outstanding request asks with the parameters of the first request,
      followed by the continuation state received last, under the id that follows all those given out before. */
  lemma {:induction false} RequestKeepsParameters(s: State, parts: seq<Part>)
    requires Waits(s) && parts != [] && (s.partial == None ==> HeaderFits(parts[0].chunk))
    requires forall i :: 0 <= i < |parts| ==> IsPart(parts[i])
    ensures
      var r := Converse(s, parts).0;
      r.last.Some? ==>
        && r.last.value.opcode == s.last.value.opcode && r.offset == s.offset
        && r.last.value.params == s.last.value.params[..s.offset] + parts[|parts| - 1].cont
        && r.nextId == s.nextId + |parts| + AllOthers(parts) && r.last.value.id == (r.nextId - 1) % 0x1_0000
    decreases |parts|
  {
    hide DeclaredSize, HeaderFits, Handle, Converse;
    var p, later := parts[0], parts[1..];
    assert IsPart(p);
    var now := TakenByOthers(s, p.others);
    if s.partial == None {
      FirstPart(now, p);
    } else {
      NextPart(now, p);
    }
    ConverseStep(s, parts);
    var one := Handle(now, ReplyTo(s, p), false, true).0;
    if one.last == None {
      ConverseIdle(one, later);
    } else if later == [] {
      ConverseNothing(one);
    } else {
      RequestKeepsParameters(one, later);
      assert one.last.value.params[..one.offset] == s.last.value.params[..s.offset];
    }
  }

  lemma ConverseNothing(s: State)
    requires Ready(s)
    ensures Converse(s, []) == (s, [])
  {
  }

  // ----- a search reply, and replies that are none -----

  /** The handles as the server sends them: four bytes each, the highest first. */
  function HandleBytes(handles: seq<u32>): (s: seq<byte>)
    ensures |s| == 4 * |handles|
  {
    if handles == [] then [] else BigEndian(handles[0], 4) + HandleBytes(handles[1..])
  }

  /** What the server sends: how many records there are, how many are in this reply, these, and a continuation state. */
  function SearchReplyParams(total: u16, handles: seq<u32>, cont: seq<byte>): seq<byte>
    requires |handles| < 0x1_0000
  {
    BigEndian(total, 2) + BigEndian(|handles|, 2) + HandleBytes(handles) + cont
  }

  /** Up to 16 bytes behind their number. */
  predicate IsCont(cont: seq<byte>) {
    cont != [] && |cont| == 1 + cont[0] as nat <= 17
  }

  lemma {:induction false} HandlesReadBack(handles: seq<u32>)
    ensures HandlesIn(HandleBytes(handles)) == handles
  {
    if handles == [] {
    } else {
      var first, rest := BigEndian(handles[0], 4), HandleBytes(handles[1..]);
      BigEndianLong(handles[0]);
      HandlesReadBack(handles[1..]);
      hide BigEndian;
      assert (first + rest)[4..] == rest;
      assert BigLong(first + rest, 0) == handles[0];
    }
  }

  /** The parts of a search reply are where the client looks for them. */
  lemma SearchReplyHas(total: u16, handles: seq<u32>, cont: seq<byte>)
    requires |handles| < 0x1_0000
    ensures
      var s, n := SearchReplyParams(total, handles, cont), 4 * |handles|;
      && |s| == 4 + n + |cont| && BigWord(s, 0) == total && BigWord(s, 2) == |handles|
      && s[4..4 + n] == HandleBytes(handles) && s[4 + n..] == cont
  {
    BigEndianWord(total);
    BigEndianWord(|handles|);
    hide BigEndian, HandleBytes;
    var s := SearchReplyParams(total, handles, cont);
    assert s == BigEndian(total, 2) + BigEndian(|handles|, 2) + (HandleBytes(handles) + cont);
  }

  /** A search reply that answers the outstanding request: the client is called once, with the total, the number of
      handles and the handles that the server sent, and told that there are more exactly if the state is not empty. If
      it wants more, the first request's parameters go out again with exactly that state behind them; otherwise nothing
      is outstanding any more. */
  lemma SearchAnswerArrives(s: State, total: u16, handles: seq<u32>, cont: seq<byte>, wants: bool)
    requires Ready(s) && s.last.Some? && s.last.value.opcode == SERVICE_SEARCH
    requires |handles| < 0x1_0000 && IsCont(cont)
    ensures
      var m := Pdu(0x03, s.last.value.id, SearchReplyParams(total, handles, cont));
      && Understandable(s, m)
      && Handle(s, m, wants, true).1 == [SearchReply(0, total, |handles|, cont != [0], handles)]
      && Handle(s, m, wants, true).0.offset == s.offset
      && Handle(s, m, wants, true).0.last ==
        if cont != [0] && wants then
          Some(Pdu(0x02, s.nextId % 0x1_0000, s.last.value.params[..s.offset] + cont))
        else None
  {
    SearchReplyHas(total, handles, cont);
    HandlesReadBack(handles);
    assert cont[..|cont|] == cont;
    assert cont == [0] <==> cont[0] == 0;
    hide SearchReplyParams, HandleBytes, HandlesIn, BigWord;
  }

  /** A search reply that breaks off anywhere is reported once, as a parser error, and nothing is outstanding. */
  lemma ShortSearchReply(s: State, total: u16, handles: seq<u32>, cont: seq<byte>, params: seq<byte>, wants: bool)
    requires Ready(s) && s.last.Some? && s.last.value.opcode == SERVICE_SEARCH
    requires |handles| < 0x1_0000 && IsCont(cont) && params < SearchReplyParams(total, handles, cont)
    ensures
      var m := Pdu(0x03, s.last.value.id, params);
      && Understandable(s, m)
      && Handle(s, m, wants, true) == (s.(last := None), [SearchReply(0xffff, 0, 0, false, [])])
  {
    SearchReplyHas(total, handles, cont);
    var all, n := SearchReplyParams(total, handles, cont), 4 * |handles|;
    hide SearchReplyParams, HandleBytes, HandlesIn;
    if |params| >= 4 {
      assert params[2] == all[2] && params[3] == all[3];
      if |params| > 4 + n {
        assert params[4 + n..][0] == all[4 + n] == all[4 + n..][0] == cont[0];
      }
    }
  }

  /** A part of an attribute list that breaks off in its count or its continuation state is reported once, as a parser
      error, and nothing is outstanding. */
  lemma ShortAttrReply(s: State, p: Part, params: seq<byte>, wants: bool)
    requires Waits(s) && IsPart(p) && params < Params(p) && Framed(s.partial, params)
    ensures
      var m := Pdu(s.last.value.opcode + 1, s.last.value.id, params);
      && Understandable(s, m) && Handle(s, m, wants, true) == (s.(last := None), [AttrReply(0xffff, None)])
  {
    hide DeclaredSize, HeaderFits;
    PartSays(p);
    var all, n := Params(p), 2 + |p.chunk|;
    hide Params;
    if |params| >= 3 {
      assert params[0] == all[0] && params[1] == all[1];
      assert params[n..][0] == all[n] == all[n..][0] == p.cont[0];
    }
  }

  /** An error reply is reported once with its code, and nothing is outstanding; one without an error is ignored. */
  lemma ErrorArrives(s: State, code: u16, rest: seq<byte>, wants: bool)
    requires Ready(s) && s.last.Some?
    ensures
      var m := Pdu(0x01, s.last.value.id, [code / 0x100, code % 0x100] + rest);
      && Understandable(s, m)
      && Handle(s, m, wants, true) ==
        if code == 0 then (s, [])
        else if s.last.value.opcode == SERVICE_SEARCH then
          (s.(last := None), [SearchReply(code, 0, 0, false, [])])
        else (s.(last := None), [AttrReply(code, None)])
  {
    hide ParseAttr, ParseSearch;
  }

  // ----- the parameters of the requests -----

  function SearchParams(pattern: seq<byte>, maxCount: u16): seq<byte> {
    pattern + BigEndian(maxCount, 2)
  }

  function AttrParams(record: u32, maxCount: u16, ids: seq<byte>): seq<byte> {
    BigEndian(record, 4) + BigEndian(maxCount, 2) + ids
  }

  function SearchAttrParams(pattern: seq<byte>, maxCount: u16, ids: seq<byte>): seq<byte> {
    SearchParams(pattern, maxCount) + ids
  }

  /** The element a caller points at, of whatever lies behind it. */
  function Pointed(de: seq<byte>): seq<byte>
    requires HeaderFits(de) && TotalSize(de) <= |de|
  {
    de[..TotalSize(de)]
  }

  /** A server finds the parts of a request from the sizes the elements declare. */
  lemma RequestIsReadBack(pattern: Element, maxCount: u16, ids: Element)
    requires WellFormed(pattern) && WellFormed(ids)
    ensures
      var s := SearchAttrParams(Encode(pattern), maxCount, Encode(ids));
      var n := |Encode(pattern)|;
      && HeaderFits(s) && TotalSize(s) == n && s[..n] == Encode(pattern)
      && FromBigEndian(s[n..n + 2]) == maxCount && s[n + 2..] == Encode(ids)
      && s[..n + 2] == SearchParams(Encode(pattern), maxCount)
  {
    Ranges();
    BigEndianRoundTrip(maxCount, 2);
    hide Encode, TotalSize, HeaderFits, BigEndian, FromBigEndian;
    var a, b, c := Encode(pattern), BigEndian(maxCount, 2), Encode(ids);
    Accessors(pattern, b + c);
    assert a + b + c == a + (b + c);
  }

  /** The same for a request of attributes of one record. */
  lemma AttrRequestIsReadBack(record: u32, maxCount: u16, ids: Element)
    requires WellFormed(ids)
    ensures
      var s := AttrParams(record, maxCount, Encode(ids));
      && |s| >= 6 && FromBigEndian(s[..4]) == record && FromBigEndian(s[4..6]) == maxCount
      && HeaderFits(s[6..]) && TotalSize(s[6..]) == |s| - 6 && s[6..] == Encode(ids)
  {
    Ranges();
    BigEndianRoundTrip(record, 4);
    BigEndianRoundTrip(maxCount, 2);
    hide Encode, TotalSize, HeaderFits, BigEndian, FromBigEndian;
    var a, b, c := BigEndian(record, 4), BigEndian(maxCount, 2), Encode(ids);
    Accessors(ids, []);
    assert c + [] == c;
    ThreeParts(a, b, c);
  }

  lemma ThreeParts(a: seq<byte>, b: seq<byte>, c: seq<byte>)
    ensures
      var s := a + b + c;
      s[..|a|] == a && s[|a|..|a| + |b|] == b && s[|a| + |b|..] == c
  {
  }

  // ----- the client object -----

  class Client {
    var last: Option<Pdu>
    var offset: nat
    /** The list as far as it has come: `written` bytes of the buffer, while `gathering`. */
    var gathering: bool
    var buffer: array<byte>
    var written: nat
    var nextId: nat
    ghost var calls: seq<Callback>

    ghost predicate Valid()
      reads this, buffer
    {
      && (gathering ==> written <= buffer.Length)
      && Ready(Abstract())
      && (last.Some? && gathering ==> buffer.Length == DeclaredSize(buffer[..written]))
    }

    ghost function Abstract(): State
      reads this, buffer
    {
      State(last, offset, if gathering && written <= buffer.Length then Some(buffer[..written]) else None, nextId)
    }

    constructor ()
      ensures Valid() && last == None && calls == []
    {
      last, offset, gathering, written, nextId := None, 0, false, 0, 0;
      buffer := new byte[0];
      calls := [];
    }

    /** Sends a request unless one is outstanding. `created` and `sent` are the outcomes of making and of
        sending the packet. */
    method Ask(opcode: byte, params: seq<byte>, created: bool, sent: bool) returns (ok: bool)
      requires Valid() && opcode in {SERVICE_SEARCH, SERVICE_ATTR, SERVICE_SEARCH_ATTR} && |params| + 17 < 0x1_0000
      modifies this
      ensures Valid() && calls == old(calls)
      ensures ok <==> old(last) == None && created && sent
      ensures ok ==>
        Abstract() == State(Some(Pdu(opcode, old(nextId) % 0x1_0000, params + [0])), |params|, None, old(nextId) + 1)
      ensures (!ok ==> last == old(last)) && buffer == old(buffer)
      ensures old(last).Some? ==> Abstract() == old(Abstract())
    {
      hide DeclaredSize, HeaderFits;
      if last.Some? {
        return false;
      }
      var id := nextId % 0x1_0000;
      nextId := nextId + 1;
      if !created {
        return false;
      }
      offset := |params|;
      if !sent {
        return false;
      }
      last := Some(Pdu(opcode, id, params + [0]));
      gathering, written := false, 0;
      return true;
    }

    /** bte_sdp_service_search_req; the other two requests likewise. */
    method ServiceSearch(pattern: seq<byte>, maxCount: u16, created: bool, sent: bool) returns (ok: bool)
      requires Valid() && HeaderFits(pattern) && TotalSize(pattern) <= |pattern| && TotalSize(pattern) + 19 < 0x1_0000
      modifies this
      ensures Valid() && calls == old(calls) && (ok <==> old(last) == None && created && sent)
      ensures
        var params := SearchParams(Pointed(pattern), maxCount);
        ok ==> Abstract() == State(Some(Pdu(SERVICE_SEARCH, old(nextId) % 0x1_0000, params + [0])), |params|, None,
            old(nextId) + 1)
      ensures (!ok ==> last == old(last)) && buffer == old(buffer)
    {
      hide TotalSize, HeaderFits, BigEndian, DeclaredSize;
      ok := Ask(SERVICE_SEARCH, SearchParams(Pointed(pattern), maxCount), created, sent);
    }

    method ServiceAttr(record: u32, maxCount: u16, ids: seq<byte>, created: bool, sent: bool) returns (ok: bool)
      requires Valid() && HeaderFits(ids) && TotalSize(ids) <= |ids| && TotalSize(ids) + 23 < 0x1_0000
      modifies this
      ensures Valid() && calls == old(calls) && (ok <==> old(last) == None && created && sent)
      ensures
        var params := AttrParams(record, maxCount, Pointed(ids));
        ok ==> Abstract() == State(Some(Pdu(SERVICE_ATTR, old(nextId) % 0x1_0000, params + [0])), |params|, None,
            old(nextId) + 1)
      ensures (!ok ==> last == old(last)) && buffer == old(buffer)
    {
      hide TotalSize, HeaderFits, BigEndian, DeclaredSize;
      ok := Ask(SERVICE_ATTR, AttrParams(record, maxCount, Pointed(ids)), created, sent);
    }

    method ServiceSearchAttr(pattern: seq<byte>, maxCount: u16, ids: seq<byte>, created: bool,
                             sent: bool) returns (ok: bool)
      requires Valid() && HeaderFits(pattern) && TotalSize(pattern) <= |pattern|
      requires HeaderFits(ids) && TotalSize(ids) <= |ids| && TotalSize(pattern) + TotalSize(ids) + 19 < 0x1_0000
      modifies this
      ensures Valid() && calls == old(calls) && (ok <==> old(last) == None && created && sent)
      ensures
        var params := SearchAttrParams(Pointed(pattern), maxCount, Pointed(ids));
        ok ==> Abstract() == State(Some(Pdu(SERVICE_SEARCH_ATTR, old(nextId) % 0x1_0000, params + [0])), |params|,
            None, old(nextId) + 1)
      ensures (!ok ==> last == old(last)) && buffer == old(buffer)
    {
      hide TotalSize, HeaderFits, BigEndian, DeclaredSize;
      ok := Ask(SERVICE_SEARCH_ATTR, SearchAttrParams(Pointed(pattern), maxCount, Pointed(ids)), created, sent);
    }

    /** Other clients take transaction ids from the same counter. */
    method OthersTakeIds(n: nat)
      requires Valid()
      modifies this`nextId
      ensures Valid() && Abstract() == TakenByOthers(old(Abstract()), n)
    {
      hide DeclaredSize, HeaderFits;
      nextId := nextId + n;
    }

    method OnMessage(m: Pdu, wants: bool, created: bool)
      requires Valid() && Understandable(Abstract(), m)
      modifies this, buffer
      ensures Valid()
      ensures
        var r := Handle(old(Abstract()), m, wants, created);
        calls == old(calls) + r.1 && (Abstract() == r.0 || (r.0.last == None && last == None && nextId == r.0.nextId))
    {
      hide DeclaredSize, HeaderFits, ParseAttr, ParseSearch, Framed;
      if last == None || m.id != last.value.id || (m.opcode != last.value.opcode + 1 && m.opcode != ERROR_RSP) {
        assert calls + [] == calls;
        return;
      }
      var error: u16 := 0;
      if m.opcode == ERROR_RSP {
        error := BigWord(m.params, 0);
        if error == 0 {
          assert calls + [] == calls;
          return;
        }
      }
      if last.value.opcode == SERVICE_SEARCH {
        OnSearchReply(m, error, wants, created);
      } else {
        OnAttrReply(m, error, created);
      }
    }

    method OnSearchReply(m: Pdu, error: u16, wants: bool, created: bool)
      requires Valid() && last.Some? && last.value.opcode == SERVICE_SEARCH && Answers(Abstract(), m)
      requires error == if m.opcode == ERROR_RSP && |m.params| >= 2 then BigWord(m.params, 0) else 0
      requires m.opcode == ERROR_RSP ==> error != 0
      modifies this`last, this`nextId, this`calls
      ensures Valid()
      ensures
        var r := Handle(old(Abstract()), m, wants, created);
        calls == old(calls) + r.1 && Abstract() == r.0
    {
      hide DeclaredSize, HeaderFits, ParseSearch;
      var parsed := NoSearch;
      if error == 0 {
        parsed := ReadSearchReply(m.params);
      }
      match parsed
      case NoSearch =>
        calls := calls + [SearchReply(if error != 0 then error else ERROR_PARSER, 0, 0, false, [])];
        last := None;
      case Search(total, count, handles, cont) =>
        var more := cont != [] && cont[0] != 0;
        calls := calls + [SearchReply(0, total, count, more, handles)];
        if more && wants {
          Continue(cont, created);
        } else {
          last := None;
        }
    }

    /** parse_service_search_reply (services/sdp.c:698-732). */
    static method ReadSearchReply(params: seq<byte>) returns (r: ParsedSearch)
      ensures r == ParseSearch(params)
    {
      hide HandlesIn, BigLong;
      if |params| < 4 {
        return NoSearch;
      }
      var total: u16, count: nat := BigWord(params, 0), BigWord(params, 2);
      if |params| - 4 < count * 4 {
        return NoSearch;
      }
      var handles := ReadHandles(params[4..4 + count * 4]);
      var cont := ContState(params[4 + count * 4..]);
      if cont == None {
        return NoSearch;
      }
      r := Search(total, count, handles, cont.value);
    }

    /** Turns the handles from the byte order of the wire. */
    static method ReadHandles(s: seq<byte>) returns (handles: seq<u32>)
      requires |s| % 4 == 0
      ensures handles == HandlesIn(s)
    {
      hide HandlesIn, BigLong;
      handles := [];
      var i := 0;
      assert s[0..] == s;
      assert [] + HandlesIn(s) == HandlesIn(s);
      while i < |s|
        invariant i <= |s| && i % 4 == 0 && handles + HandlesIn(s[i..]) == HandlesIn(s)
        decreases |s| - i
      {
        NextHandle(s, i);
        assert handles + ([BigLong(s, i)] + HandlesIn(s[i + 4..])) == handles + [BigLong(s, i)] + HandlesIn(s[i + 4..]);
        handles := handles + [BigLong(s, i)];
        i := i + 4;
      }
      NoHandles();
      assert s[i..] == [] && handles + [] == handles;
    }

    static lemma NextHandle(s: seq<byte>, i: nat)
      requires i + 4 <= |s| && i % 4 == |s| % 4 == 0
      ensures HandlesIn(s[i..]) == [BigLong(s, i)] + HandlesIn(s[i + 4..])
    {
      assert s[i..][4..] == s[i + 4..];
      assert BigLong(s[i..], 0) == BigLong(s, i);
    }

    static lemma NoHandles()
      ensures HandlesIn([]) == []
    {
    }

    /** Sends the request again with the continuation state of the reply. */
    method Continue(cont: seq<byte>, created: bool)
      requires Valid() && last.Some?
      modifies this`last, this`nextId
      ensures Valid() && Abstract() == AskOn(old(Abstract()), cont, created)
    {
      hide DeclaredSize, HeaderFits;
      var id := nextId % 0x1_0000;
      nextId := nextId + 1;
      if created {
        last := Some(Pdu(last.value.opcode, id, last.value.params[..offset] + cont));
      }
    }

    method OnAttrReply(m: Pdu, error: u16, created: bool)
      requires Valid() && last.Some? && last.value.opcode != SERVICE_SEARCH && Answers(Abstract(), m)
      requires error == if m.opcode == ERROR_RSP && |m.params| >= 2 then BigWord(m.params, 0) else 0
      requires m.opcode == ERROR_RSP ==> error != 0
      requires Understandable(Abstract(), m)
      modifies this, buffer
      ensures Valid()
      ensures
        var r := Handle(old(Abstract()), m, false, created);
        calls == old(calls) + r.1 && (Abstract() == r.0 || (r.0.last == None && last == None && nextId == r.0.nextId))
    {
      hide DeclaredSize, HeaderFits, ParseAttr, Framed;
      var parsed := Bad;
      if error == 0 {
        parsed := Gather(m.params);
      }
      match parsed
      case Bad =>
        calls := calls + [AttrReply(if error != 0 then error else ERROR_PARSER, None)];
        last := None;
      case Complete(list) =>
        calls := calls + [AttrReply(0, Some(list))];
        last := None;
      case More(_, cont) =>
        Continue(cont, created);
    }

    /** Copies the part of a reply behind the parts before it. */
    method Gather(params: seq<byte>) returns (r: Parsed)
      requires Valid() && last.Some? && Framed(Abstract().partial, params)
      modifies this`gathering, this`buffer, this`written, buffer
      ensures r == ParseAttr(old(Abstract()).partial, params)
      ensures r.More? ==> Valid() && Abstract() == old(Abstract()).(partial := Some(r.partial))
      ensures gathering ==> written <= buffer.Length
    {
      hide DeclaredSize, HeaderFits;
      if |params| < 3 {
        return Bad;
      }
      var n := BigWord(params, 0);
      var chunk, cont := params[2..2 + n], ContState(params[2 + n..]);
      if cont == None {
        return Bad;
      }
      var final := cont.value[0] == 0;
      if final && !gathering {
        return if |chunk| == DeclaredSize(chunk) then Complete(chunk) else Bad;
      }
      if !gathering {
        var total := DeclaredSize(chunk);
        if total >= 0x1_0000 {
          return Bad;
        }
        buffer, written, gathering := new byte[total], 0, true;
      }
      if written + |chunk| > buffer.Length {
        return Bad;
      }
      PutBytes(buffer, written, chunk);
      written := written + |chunk|;
      if final && written != buffer.Length {
        return Bad;
      }
      var list := buffer[..written];
      ghost var before := old(Abstract()).partial;
      ParseStaysBelow(before, params);
      if before.Some? {
        DeclaredByFront(before.value, chunk);
        assert list == before.value + chunk;
      } else {
        assert list == chunk == [] + chunk;
      }
      return if final then Complete(list) else More(list, cont.value);
    }
  }

  /** A search, and one reply to it, on the client object. */
  method SearchRound(c: Client, pattern: seq<byte>, maxCount: u16, total: u16, handles: seq<u32>, cont: seq<byte>,
                     wants: bool)
    requires c.Valid() && c.last == None
    requires HeaderFits(pattern) && TotalSize(pattern) <= |pattern| && TotalSize(pattern) + 19 < 0x1_0000
    requires |handles| < 0x1_0000 && IsCont(cont)
    modifies c, c.buffer
    ensures c.Valid() && c.calls == old(c.calls) + [SearchReply(0, total, |handles|, cont != [0], handles)]
    ensures
      if cont != [0] && wants then
        && c.last.Some? && c.last.value.opcode == 0x02
        && c.last.value.params == pattern[..TotalSize(pattern)] + [maxCount / 0x100, maxCount % 0x100] + cont
      else c.last == None
  {
    BigEndianWord(maxCount);
    hide TotalSize, HeaderFits, DeclaredSize, Handle, SearchReplyParams, IsCont, BigEndian;
    var ok := c.ServiceSearch(pattern, maxCount, true, true);
    ghost var s, params := c.Abstract(), SearchParams(Pointed(pattern), maxCount);
    assert (params + [0])[..|params|] == params;
    SearchAnswerArrives(s, total, handles, cont, wants);
    c.OnMessage(Pdu(0x03, c.last.value.id, SearchReplyParams(total, handles, cont)), wants, true);
  }
}
