/** The L2CAP channel (section 6 of Vol 3 Part A of the Bluetooth Core specification): its
    ten states, the two negotiation directions, and what the state says about the past. */
module L2capChannel {
  import opened Prelude
  import opened Bytes
  import opened AclCredits
  import opened L2capOptions
  import opened L2capConfig
  import opened L2capParse
  import opened L2capUnknown
  import opened L2capEvents

  datatype State =
    | CLOSED
    | WAIT_CONNECT
    | WAIT_CONNECT_RSP
    | WAIT_CONFIG
    | WAIT_SEND_CONFIG
    | WAIT_CONFIG_REQ_RSP
    | WAIT_CONFIG_RSP
    | WAIT_CONFIG_REQ
    | OPEN
    | WAIT_DISCONNECT

  /** The numerical order of the states, which some tests use. */
  function Rank(s: State): nat {
    match s
    case CLOSED => 0
    case WAIT_CONNECT => 1
    case WAIT_CONNECT_RSP => 2
    case WAIT_CONFIG => 3
    case WAIT_SEND_CONFIG => 4
    case WAIT_CONFIG_REQ_RSP => 5
    case WAIT_CONFIG_RSP => 6
    case WAIT_CONFIG_REQ => 7
    case OPEN => 8
    case WAIT_DISCONNECT => 9
  }

  /** Every state from WAIT_CONFIG to OPEN means exactly one combination of the facts; in the
      others the channel is not up. */
  predicate Means(s: State, f: Facts) {
    match s
    case WAIT_CONFIG => f == Facts(true, false, false, false)
    case WAIT_SEND_CONFIG => f == Facts(true, false, false, true)
    case WAIT_CONFIG_REQ_RSP => f == Facts(true, false, true, false)
    case WAIT_CONFIG_RSP => f == Facts(true, false, true, true)
    case WAIT_CONFIG_REQ => f == Facts(true, true, false, false)
    case OPEN => f == Facts(true, true, false, true)
    case _ => !f.up
  }

  const SIGNAL_CMD_REJ: nat := 0x01
  const SIGNAL_CONN_RSP: nat := 0x03
  const SIGNAL_CONFIG_RSP: nat := 0x05
  const SIGNAL_DISCONN_RSP: nat := 0x07
  const SIGNAL_ECHO_RSP: nat := 0x09
  const SIGNAL_INFO_RSP: nat := 0x0b
  const CONN_RES_OK := 0
  const CONN_RES_PENDING := 1
  const MTU_MIN := 48

  /** l2cap_configure_data_t */
  datatype ConfData = ConfData(rejected: set<nat>, unknown: set<nat>, params: Params, hasPending: bool, startCmd: nat)

  const NO_DATA := ConfData({}, {}, CLEARED, false, 0)

  /** What a client's configure callback answers with bte_l2cap_set_configure_reply. */
  datatype ConfReply = ConfReply(rejected: set<nat>, params: Params)

  /** l2cap_config_apply: an MTU that is not given is the default one. */
  function MtuOf(p: Params): nat {
    if MTU in p.mask then p.mtu else MTU_DEFAULT
  }

  function DataOf(stored: Option<ConfData>): ConfData {
    if stored.Some? then stored.value else NO_DATA
  }

  /** A request with an unknown option is answered only if the second walk over it ends. */
  predicate CanReply(body: seq<byte>, size: nat, p: Params, stack: Stack) {
    Parse(body, size, p, true).code == UnknownType ==> SecondPass(body, size, stack).Sent?
  }

  predicate PendingIn(stored: Option<ConfData>) {
    DataOf(stored).hasPending
  }

  /** bte_l2cap_set_configure_reply (l2cap.c:1633-1668): a structured option is replaced only
      if the reply's mask names it. */
  function SetReply(was: Params, reply: Params): Params {
    reply.(qos := if QOS in reply.mask then reply.qos else was.qos,
           retxFlow := if RETX_FLOW in reply.mask then reply.retxFlow else was.retxFlow,
           extFlow := if EXT_FLOW in reply.mask then reply.extFlow else was.extFlow)
  }

  /** Facts after at least one request of ours. */
  function Requested(f: Facts, reconfigure: bool): Facts {
    Facts(f.up, false, true, f.theirs && !reconfigure)
  }

  function AfterRequest(s: State): State {
    if s == WAIT_CONFIG || s == OPEN then WAIT_CONFIG_REQ_RSP
    else if s == WAIT_SEND_CONFIG then WAIT_CONFIG_RSP
    else s
  }

  function AfterFinishedPositive(s: State): State {
    if s == WAIT_CONFIG then WAIT_SEND_CONFIG
    else if s == WAIT_CONFIG_REQ_RSP then WAIT_CONFIG_RSP
    else if s == WAIT_CONFIG_REQ then OPEN
    else s
  }

  function AfterFinal(s: State, positive: bool): State {
    if s == WAIT_CONFIG_RSP then (if positive then OPEN else WAIT_SEND_CONFIG)
    else (if positive then WAIT_CONFIG_REQ else WAIT_CONFIG)
  }

  /** States in which the peer's configuration requests are taken. */
  predicate TakesRequests(s: State) {
    s == WAIT_CONFIG || s == WAIT_CONFIG_REQ || s == WAIT_CONFIG_REQ_RSP || s == OPEN
  }

  /** States in which the client may send a configuration request. */
  predicate MayConfigure(s: State) {
    s == WAIT_CONFIG || s == WAIT_SEND_CONFIG || s == OPEN
  }

  /** States in which a configuration response is taken. */
  predicate TakesResponses(s: State) {
    s == WAIT_CONFIG_RSP || s == WAIT_CONFIG_REQ_RSP
  }

  /** Messages of a request: one per turn of the loop, all but the last marked continued. */
  predicate AreRequests(events: seq<Event>, p: Params, limit: nat, reconfigure: bool) {
    forall i: nat :: i < |events| ==>
      && events[i].ReqSent? && events[i].options == BlockOfTurn(p, limit, i) && events[i].reconfigure == reconfigure
      && (events[i].more <==> AfterTurns(p, limit, i + 1) != END_OF_OPTIONS) && (i + 1 < |events| ==> events[i].more)
  }

  /** The loop ends after n turns: everything is sent, or the n-th send returns 0. */
  ghost predicate EndsAt(p: Params, limit: nat, rcs: nat -> int, first: nat, n: nat) {
    n >= 1 && (AfterTurns(p, limit, n) == END_OF_OPTIONS || rcs(first + n - 1) == 0)
  }

  ghost predicate RequestEnds(p: Params, limit: nat, rcs: nat -> int, first: nat) {
    exists n :: EndsAt(p, limit, rcs, first, n)
  }

  /** Some send from number `first` on returns 0. */
  ghost predicate QueuesFrom(rcs: nat -> int, first: nat) {
    exists n: nat :: n >= first && rcs(n) == 0
  }

  /** The request loop by itself, whatever its sends return: it ends if and only if every present option fits a
      message or some later send returns 0. */
  lemma {:induction false} RequestEndsIff(p: Params, limit: nat, rcs: nat -> int, first: nat)
    ensures RequestEnds(p, limit, rcs, first) <==> AllFit(p, limit) || QueuesFrom(rcs, first)
  {
    LoopEndsIffAllFit(p, limit);
    hide AllFit, AfterTurns;
    if AllFit(p, limit) {
      var n :| n >= 1 && AfterTurns(p, limit, n) == END_OF_OPTIONS;
      assert EndsAt(p, limit, rcs, first, n);
    }
    if QueuesFrom(rcs, first) {
      var n: nat :| n >= first && rcs(n) == 0;
      assert EndsAt(p, limit, rcs, first, n - first + 1);
    }
  }

  /** On the ACL layer the loop ends for every parameter set and every MTU, with one message more than there are
      credits at the latest. */
  lemma {:induction false} CreditsEndRequest(p: Params, limit: nat, credits: nat -> nat, rcs: nat -> int, first: nat)
    requires AreSends(credits, rcs)
    ensures QueuesFrom(rcs, first) && RequestEnds(p, limit, rcs, first)
    ensures exists n: nat :: EndsAt(p, limit, rcs, first, n) && n <= credits(first) + 1
  {
    hide AfterTurns;
    var n := SomeSendReturnsZero(credits, rcs, first);
    assert EndsAt(p, limit, rcs, first, n - first + 1);
  }

  lemma GoesOn(sent: seq<Event>, p: Params, limit: nat, reconfigure: bool, i: nat)
    requires AreRequests(sent, p, limit, reconfigure) && i + 1 < |sent|
    ensures AfterTurns(p, limit, i + 1) != END_OF_OPTIONS
  {
    hide AfterTurns, BlockOfTurn;
    assert sent[i].more;
  }

  /** A request that was sent to its end is whole: every option fitted, and the messages carry the blocks. */
  lemma {:induction false} FinishedIsWhole(sent: seq<Event>, p: Params, limit: nat, reconfigure: bool)
    requires sent != [] && AreRequests(sent, p, limit, reconfigure) && AfterTurns(p, limit, |sent|) == END_OF_OPTIONS
    ensures AllFit(p, limit) && |sent| == |Blocks(p, 1, limit)|
    ensures forall i :: 0 <= i < |sent| ==> sent[i].ReqSent? && sent[i].options == Blocks(p, 1, limit)[i]
  {
    LoopEndsIffAllFit(p, limit);
    hide AllFit, Blocks, BlockOfTurn, AreRequests;
    assert AfterTurns(p, limit, 0) == 1;
    hide AfterTurns;
    var blocks := Blocks(p, 1, limit);
    if |sent| > |blocks| {
      GoesOn(sent, p, limit, reconfigure, |blocks| - 1);
    }
    if |sent| < |blocks| {
      BlocksAreTurns(p, limit, 0, |sent|);
    }
    BlocksAreTurns(p, limit, 0, |blocks| - 1);
    forall i | 0 <= i < |sent|
      ensures sent[i].ReqSent? && sent[i].options == blocks[i]
    {
      BlocksAreTurns(p, limit, 0, i);
      OptionsOfTurn(sent, p, limit, reconfigure, i);
    }
  }

  lemma OptionsOfTurn(sent: seq<Event>, p: Params, limit: nat, reconfigure: bool, i: nat)
    requires AreRequests(sent, p, limit, reconfigure) && i < |sent|
    ensures sent[i].ReqSent? && sent[i].options == BlockOfTurn(p, limit, i)
  {
    hide AfterTurns, BlockOfTurn;
  }

  /** What a configuration response adds to the log: the client may take the channel down when it is told the
      result, and a response that announces more is followed by an empty request if exactly one other is expected. */
  function Receives(result: nat, flags: nat, oneMoreExpected: bool, callbackDisconnects: bool, rc: int): seq<Event> {
    [RspReceived(result, flags)] +
    if flags == 0 then (if callbackDisconnects && rc >= 0 then [DisconnReqSent] else [])
    else if oneMoreExpected then [ReqSent([], false, rc, false)] else []
  }

  /** The log once the client was told, and perhaps has taken down its connected channel. */
  function Told(before: seq<Event>, callbackDisconnects: bool, rc: int): seq<Event> {
    if callbackDisconnects && rc >= 0 then before + [DisconnReqSent] else before
  }

  /** One more message of a response that is not yet sent to its end. */
  function RestOf(conf: ConfData, limit: nat, rc: int): Event
    requires conf.startCmd <= MAX_WINDOW_SIZE
  {
    RspSent(BlockAt(conf.params, conf.startCmd, limit), NextStart(conf.params, conf.startCmd, limit) > 0,
            if conf.rejected != {} then RES_ERR_REJ else RES_OK, rc)
  }

  lemma ReceivesInOrder(before: seq<Event>, result: nat, flags: nat, oneMoreExpected: bool,
                        callbackDisconnects: bool, rc: int)
    ensures
      var first := before + [RspReceived(result, flags)];
      before + Receives(result, flags, oneMoreExpected, callbackDisconnects, rc) ==
        if flags == 0 then Told(first, callbackDisconnects, rc)
        else if oneMoreExpected then first + [ReqSent([], false, rc, false)] else first
  {
  }

  /** A request with an option that fits no message is never whole: all its messages announce more, and from the
      seventh on none carries anything. */
  lemma {:induction false} OversizeIsNeverWhole(sent: seq<Event>, p: Params, limit: nat, reconfigure: bool)
    requires AreRequests(sent, p, limit, reconfigure) && !AllFit(p, limit)
    ensures forall i :: 0 <= i < |sent| ==> sent[i].more
    ensures forall i :: 6 <= i < |sent| ==> sent[i].options == []
  {
    LoopEndsIffAllFit(p, limit);
    forall i | 0 <= i < |sent|
      ensures sent[i].more && (i >= 6 ==> sent[i].options == [])
    {
      assert AfterTurns(p, limit, i + 1) != END_OF_OPTIONS;
      if i >= 6 {
        StandsStill(p, limit, i);
      }
      hide AllFit, AfterTurns, BlockOfTurn;
      assert sent[i].options == BlockOfTurn(p, limit, i);
    }
  }

  // ----- what a channel waits for -----

  /** The code and id of the response that is taken, and how many are outstanding. */
  datatype Awaited = Awaited(code: nat, id: nat, count: nat)

  /** After n more requests, the last of them with that response code and that id. */
  function Awaiting(before: Awaited, code: nat, id: nat, n: nat): Awaited {
    if n == 0 then before else Awaited(code, id, (before.count + n) % 256)
  }

  /** Signal ids run from 1 to 255. */
  function NextId(last: byte): byte {
    if last == 0xff then 1 else last + 1
  }

  function IdAfter(last: byte, n: nat): byte {
    if n == 0 then last else NextId(IdAfter(last, n - 1))
  }

  lemma OneId(last: byte)
    ensures IdAfter(last, 1) == NextId(last)
  {
    assert IdAfter(last, 0) == last;
  }

  lemma {:induction false} IdIs(last: byte, n: nat)
    requires n > 0
    ensures IdAfter(last, n) == (last + n - 1) % 255 + 1
  {
    if n == 1 {
    } else {
      IdIs(last, n - 1);
    }
  }

  predicate Continued(e: Event) {
    e.ReqSent? && e.more
  }

  /** A request message that was queued, which the sender takes for a failure. */
  predicate IsQueued(e: Event) {
    e.ReqSent? && e.rc == 0
  }

  /** A response from the peer; `complete` says that its fixed part was all there. A client
      may tear the channel down in its configuration callback. */
  datatype Response =
    | ConnRsp(complete: bool, remote: nat, local: nat, result: nat)
    | ConfigRsp(complete: bool, flags: nat, result: nat, len: nat, body: seq<byte>, callbackDisconnects: bool)
    | DisconnRsp(complete: bool, dest: nat, source: nat)
    | OtherRsp(code: nat)

  function CodeOf(r: Response): nat {
    match r
    case ConnRsp(_, _, _, _) => SIGNAL_CONN_RSP
    case ConfigRsp(_, _, _, _, _, _) => SIGNAL_CONFIG_RSP
    case DisconnRsp(_, _, _) => SIGNAL_DISCONN_RSP
    case OtherRsp(code) => code
  }

  class Channel {
    /** What the ACL layer answers to the n-th send on this channel, if it has credits left. */
    const backend: nat -> Answer
    var sends: nat
    /** The credits of the controller, which all channels share. */
    var credits: nat
    var state: State
    var localCid: nat
    var remoteCid: nat
    var mtu: nat
    var remoteMtu: nat
    var expectedCode: nat
    var expectedId: byte
    var expectedCount: byte
    var lastSignalId: byte
    var configureReq: Option<ConfData>
    var configureResp: Option<ConfData>
    ghost var log: seq<Event>

    ghost predicate Valid()
      reads this
    {
      && Means(state, FactsOf(log))
      && (configureReq.Some? ==> PendingOk(configureReq.value))
    }

    predicate PendingOk(conf: ConfData) {
      conf.hasPending ==> 1 <= conf.startCmd <= MAX_WINDOW_SIZE
    }

    /** What the next send will return. */
    function NextRc(): int
      reads this`sends, this`credits
    {
      RcOf(backend(sends), credits)
    }

    function Expects(): Awaited
      reads this`expectedCode, this`expectedId, this`expectedCount
    {
      Awaited(expectedCode, expectedId, expectedCount)
    }

    constructor (backend: nat -> Answer, credits: nat)
      ensures Valid() && state == CLOSED && log == [] && this.backend == backend && sends == 0
      ensures this.credits == credits && expectedCount == 0 && remoteMtu == MTU_MIN && configureReq.None? &&
        configureResp.None?
    {
      this.backend, this.credits := backend, credits;
      sends, state, localCid, remoteCid, mtu, remoteMtu := 0, CLOSED, 0, 0, MTU_DEFAULT, MTU_MIN;
      expectedCode, expectedId, expectedCount, lastSignalId := 0, 0, 0, 0;
      configureReq, configureResp, log := None, None, [];
      FactsAtStart();
    }

    /** Hands a message to the ACL layer. */
    method Send() returns (rc: int)
      modifies this`sends, this`credits
      ensures rc == old(NextRc()) && sends == old(sends) + 1 && IsSend(old(credits), rc, credits)
    {
      rc := RcOf(backend(sends), credits);
      credits := Left(backend(sends), credits);
      sends := sends + 1;
    }

    ghost method Record(e: Event)
      modifies this`log
      ensures log == old(log) + [e] && FactsOf(log) == Update(FactsOf(old(log)), e)
    {
      FactsSnoc(log, e);
      log := log + [e];
    }

    method NextSignalId() returns (id: byte)
      modifies this`lastSignalId
      ensures id == lastSignalId == NextId(old(lastSignalId))
    {
      if lastSignalId == 0xff {
        lastSignalId := 0;
      }
      lastSignalId := lastSignalId + 1;
      id := lastSignalId;
    }

    /** l2cap_signal: an ordinary request. */
    method Signal(responseCode: nat) returns (rc: int)
      modifies this`sends, this`credits, this`expectedCode, this`expectedId, this`expectedCount, this`lastSignalId
      ensures rc == old(NextRc()) && sends == old(sends) + 1
      ensures lastSignalId == NextId(old(lastSignalId))
      ensures Expects() == Awaiting(old(Expects()), responseCode, lastSignalId, 1)
    {
      var id := NextSignalId();
      expectedCode, expectedId, expectedCount := responseCode, id, (expectedCount + 1) % 256;
      rc := Send();
    }

    // ----- connecting and disconnecting -----

    /** l2cap_connection_request (l2cap.c:193-208), with a fresh channel id. */
    method ConnectionRequest(newCid: nat) returns (ok: bool)
      requires Valid()
      modifies this
      ensures Valid()
      ensures Rank(old(state)) > 1 ==> state == old(state) && log == old(log) && Expects() == old(Expects())
      ensures Rank(old(state)) <= 1 ==> lastSignalId == NextId(old(lastSignalId))
      ensures Rank(old(state)) <= 1 ==> Expects() == Awaiting(old(Expects()), SIGNAL_CONN_RSP, lastSignalId, 1)
      ensures Rank(old(state)) <= 1 ==> localCid == newCid && (ok <==> old(NextRc()) >= 0)
      ensures Rank(old(state)) <= 1 ==>
                if ok then state == WAIT_CONNECT_RSP && log == old(log) + [ConnReqSent]
                else state == old(state) && log == old(log)
    {
      if Rank(state) > Rank(WAIT_CONNECT) {
        return true;
      }
      localCid := newCid;
      var rc := Signal(SIGNAL_CONN_RSP);
      ok := rc >= 0;
      if ok {
        Record(ConnReqSent);
        state := WAIT_CONNECT_RSP;
      }
    }

    /** An incoming connection is accepted on a new channel (l2cap.c:906-918). */
    method AcceptConnection(newCid: nat, peerCid: nat)
      requires Valid() && state == CLOSED
      modifies this`localCid, this`remoteCid, this`state, this`log
      ensures localCid == newCid && remoteCid == peerCid
      ensures Valid() && state == WAIT_CONFIG && log == old(log) + [Connected]
    {
      localCid, remoteCid := newCid, peerCid;
      Record(Connected);
      state := WAIT_CONFIG;
    }

    /** l2cap_connect_cb (l2cap.c:264-309). A reply for another channel id is refused only
        after the state has changed. */
    method HandleConnRsp(complete: bool, remote: nat, local: nat, result: nat) returns (ok: bool)
      requires Valid() && state == WAIT_CONNECT_RSP
      modifies this`state, this`log, this`remoteCid
      ensures Valid()
      ensures state == if !complete || result == CONN_RES_PENDING then old(state)
                       else if result == CONN_RES_OK then WAIT_CONFIG else CLOSED
      ensures remoteCid == if complete && result <= CONN_RES_PENDING then remote else old(remoteCid)
      ensures ok <==> complete && (result > CONN_RES_PENDING || (result == CONN_RES_OK && local == localCid))
      ensures log == old(log) + if !complete || result == CONN_RES_PENDING then []
                                else if result == CONN_RES_OK then [Connected] else [Disconnected]
    {
      if !complete {
        return false;
      }
      if result > CONN_RES_PENDING {
        Record(Disconnected);
        state := CLOSED;
      } else {
        if result == CONN_RES_OK {
          Record(Connected);
          state := WAIT_CONFIG;
        }
        remoteCid := remote;
        if local != localCid {
          return false;
        }
      }
      ok := result != CONN_RES_PENDING;
    }

    /** bte_l2cap_disconnect (l2cap.c:1121-1133, 1670-1682). */
    method Disconnect()
      modifies this`sends, this`credits, this`state, this`log, this`expectedCode, this`expectedId, this`expectedCount
      modifies this`lastSignalId
      ensures state == if Rank(old(state)) < Rank(WAIT_CONFIG) then CLOSED
                       else if old(NextRc()) >= 0 then WAIT_DISCONNECT else old(state)
      ensures log == if Rank(old(state)) < Rank(WAIT_CONFIG) then old(log) + [Disconnected]
                     else Told(old(log), true, old(NextRc()))
      ensures log == old(log) || !FactsOf(log).up
      ensures lastSignalId == if Rank(old(state)) < Rank(WAIT_CONFIG) then old(lastSignalId)
                              else NextId(old(lastSignalId))
      ensures Expects() == Awaiting(old(Expects()), SIGNAL_DISCONN_RSP, lastSignalId,
                                    if Rank(old(state)) < Rank(WAIT_CONFIG) then 0 else 1)
    {
      if Rank(state) >= Rank(WAIT_CONFIG) {
        var rc := Signal(SIGNAL_DISCONN_RSP);
        if rc >= 0 {
          Record(DisconnReqSent);
          state := WAIT_DISCONNECT;
        }
      } else {
        Record(Disconnected);
        state := CLOSED;
      }
    }

    /** l2cap_handle_disconnect_resp (l2cap.c:1135-1157). */
    method HandleDisconnRsp(complete: bool, dest: nat, source: nat) returns (ok: bool)
      requires Valid() && state == WAIT_DISCONNECT
      modifies this`state, this`log
      ensures Valid() && ok == (complete && dest == remoteCid && source == localCid)
      ensures if ok then state == CLOSED && log == old(log) + [Disconnected] else state == old(state) && log == old(log)
    {
      if !complete || dest != remoteCid || source != localCid {
        return false;
      }
      Record(Disconnected);
      state := CLOSED;
      ok := true;
    }

    /** acl_l2cap_handle_disconnect_req (l2cap.c:1168-1194), in any state. */
    method HandleDisconnReq(dest: nat)
      requires Valid()
      modifies this`sends, this`credits, this`state, this`log
      ensures Valid()
      ensures if dest == localCid then state == CLOSED && log == old(log) + [Disconnected]
              else state == old(state) && log == old(log)
    {
      if dest != localCid {
        return;
      }
      var _ := Send();
      Record(Disconnected);
      state := CLOSED;
    }

    /** The ACL link is lost (l2cap.c:1337-1370): clients are told, and the state stays as it is. */
    method LinkGone()
      requires Valid()
      modifies this`log
      ensures Valid() && log == old(log) + [LinkLost]
    {
      hide FactsOf;
      Record(LinkLost);
    }

    // ----- configuration messages -----

    /** The option part of one message: measured first, then written into a buffer of just
        that size. */
    method BuildOptions(p: Params, start: nat) returns (next: nat, options: seq<byte>)
      requires start <= MAX_WINDOW_SIZE
      ensures next == NextStart(p, start, remoteMtu) && options == BlockAt(p, start, remoteMtu)
    {
      var none := new byte[0];
      var size;
      next, size := ConfigWrite(p, start, false, none, 0, remoteMtu);
      var buffer := new byte[size](_ => 0);
      if size > 0 {
        var _, _ := ConfigWrite(p, start, true, buffer, 0, remoteMtu);
      }
      options := buffer[..];
    }

    /** l2cap_config_send for a request (l2cap.c:625-721, msg_id 0): one message per block,
        until all are sent or a send returns 0. The state moves on in either case. */
    method SendRequest(p: Params) returns (ok: bool, ghost sent: seq<Event>)
      requires Means(state, FactsOf(log)) && Rank(state) >= Rank(WAIT_CONFIG)
      requires state != WAIT_CONFIG_REQ && state != WAIT_DISCONNECT
      modifies this`sends, this`credits, this`state, this`expectedCode, this`expectedId, this`expectedCount
      modifies this`lastSignalId, this`log
      ensures state == AfterRequest(old(state)) && Means(state, FactsOf(log))
      ensures log == old(log) + sent && StartsWith(sent, old(NextRc())) &&
        AreRequests(sent, p, remoteMtu, old(state) == OPEN)
      ensures sends == old(sends) + |sent| && |sent| + credits <= old(credits) + if ok then 0 else 1
      ensures lastSignalId == IdAfter(old(lastSignalId), |sent|)
      ensures Expects() == Awaiting(old(Expects()), SIGNAL_CONFIG_RSP, lastSignalId, if ok then |sent| else |sent| - 1)
      ensures if ok then AfterTurns(p, remoteMtu, |sent|) == END_OF_OPTIONS && AllFit(p, remoteMtu)
                      && !IsQueued(sent[|sent| - 1])
              else IsQueued(sent[|sent| - 1]) && credits == 0
    {
      hide FactsOf, AreRequests, IsQueued, AfterTurns, Requested, Means, AfterRequest, AllFit;
      ghost var facts := FactsOf(log);
      ok, sent := SendRequestMessages(p, state == OPEN);
      if ok {
        FinishedIsWhole(sent, p, remoteMtu, old(state) == OPEN);
      }
      MeansAfterRequest(state, facts);
      MoveAfterRequest();
    }

    method MoveAfterRequest()
      modifies this`state
      ensures state == AfterRequest(old(state))
    {
      if state == WAIT_CONFIG || state == OPEN {
        state := WAIT_CONFIG_REQ_RSP;
      } else if state == WAIT_SEND_CONFIG {
        state := WAIT_CONFIG_RSP;
      }
    }

    /** The loop of l2cap_config_send. It ends whatever there is to send: a turn goes by only with a credit. */
    method SendRequestMessages(p: Params, ghost reconfigure: bool) returns (ok: bool, ghost sent: seq<Event>)
      modifies this`sends, this`credits, this`expectedCode, this`expectedId, this`expectedCount, this`lastSignalId
      modifies this`log
      ensures FactsOf(log) == Requested(FactsOf(old(log)), reconfigure)
      ensures log == old(log) + sent && StartsWith(sent, old(NextRc())) && AreRequests(sent, p, remoteMtu, reconfigure)
      ensures sends == old(sends) + |sent| && |sent| + credits <= old(credits) + if ok then 0 else 1
      ensures lastSignalId == IdAfter(old(lastSignalId), |sent|)
      ensures Expects() == Awaiting(old(Expects()), SIGNAL_CONFIG_RSP, lastSignalId, if ok then |sent| else |sent| - 1)
      ensures if ok then AfterTurns(p, remoteMtu, |sent|) == END_OF_OPTIONS && !IsQueued(sent[|sent| - 1])
              else IsQueued(sent[|sent| - 1]) && credits == 0
    {
      hide *;
      var start: nat, done := 0, false;
      ghost var awaited, id := Expects(), lastSignalId;
      var _ := NextSignalId();
      FirstId(awaited, id);
      ghost var before, facts, first := log, FactsOf(log), sends;
      sent := [];
      ok := true;
      NothingSent(p, remoteMtu, reconfigure);
      while !done
        invariant sends == first + |sent| && log == before + sent
        invariant if sent == [] then NextRc() == old(NextRc()) else StartsWith(sent, old(NextRc()))
        invariant |sent| + credits <= old(credits) + if ok then 0 else 1
        invariant Sending(p, remoteMtu, reconfigure, start, sent, done, ok) && (ok || (credits == 0 && done))
        invariant FactsAfter(facts, FactsOf(log), sent, reconfigure)
        invariant Counted(awaited, Expects(), id, lastSignalId, |sent|, done, ok)
        decreases !done, credits
      {
        ghost var sofar, last := Expects(), lastSignalId;
        ghost var now := FactsOf(log);
        ghost var e;
        ok, start, e := SendNextRequest(p, start, reconfigure, sent);
        FactsGoOn(facts, now, sent, e, reconfigure);
        StillStartsWith(sent, e, old(NextRc()));
        CountOne(awaited, sofar, Expects(), id, last, lastSignalId, |sent|, ok, !ok || start == 0);
        assert before + sent + [e] == before + (sent + [e]);
        sent := sent + [e];
        done := !ok || start == 0;
      }
      AllSent(p, remoteMtu, reconfigure, start, sent, ok, facts, FactsOf(log));
      AllCounted(awaited, Expects(), id, lastSignalId, |sent|, ok);
    }

    /** One turn of that loop. */
    method SendNextRequest(p: Params, start: nat, ghost reconfigure: bool, ghost was: seq<Event>)
      returns (ok: bool, next: nat, ghost e: Event)
      requires Sending(p, remoteMtu, reconfigure, start, was, false, true)
      modifies this`sends, this`credits, this`expectedCode, this`expectedId, this`expectedCount, this`lastSignalId
      modifies this`log
      ensures sends == old(sends) + 1 && log == old(log) + [e] && e.ReqSent? && e.rc == old(NextRc())
      ensures if ok then credits < old(credits) else credits == 0
      ensures FactsOf(log) == Requested(FactsOf(old(log)), reconfigure)
      ensures Sending(p, remoteMtu, reconfigure, next, was + [e], !ok || next == 0, ok)
      ensures lastSignalId == if ok && next != 0 then NextId(old(lastSignalId)) else old(lastSignalId)
      ensures Expects() == Awaiting(old(Expects()), SIGNAL_CONFIG_RSP, lastSignalId, if ok then 1 else 0)
    {
      hide *;
      StartsInRange(p, remoteMtu, reconfigure, start, was);
      var rc;
      next, rc, e := SendOneRequest(p, start, reconfigure);
      NextIsSent(p, remoteMtu, reconfigure, start, was, e);
      ok := rc != 0;
      NothingMoreAwaited(Expects(), lastSignalId);
      if ok {
        ExpectResponse(next > 0);
      }
    }

    /** One more response is expected, with the id of the next message if there is one. */
    method ExpectResponse(more: bool)
      modifies this`expectedCode, this`expectedId, this`expectedCount, this`lastSignalId
      ensures lastSignalId == if more then NextId(old(lastSignalId)) else old(lastSignalId)
      ensures Expects() == Awaiting(old(Expects()), SIGNAL_CONFIG_RSP, lastSignalId, 1)
    {
      expectedCode, expectedCount := SIGNAL_CONFIG_RSP, (expectedCount + 1) % 256;
      if more {
        var _ := NextSignalId();
      }
      expectedId := lastSignalId;
    }

    method SendOneRequest(p: Params, start: nat, ghost reconfigure: bool) returns (next: nat, rc: int, ghost e: Event)
      requires start <= MAX_WINDOW_SIZE
      modifies this`sends, this`credits, this`log
      ensures next == NextStart(p, start, remoteMtu) && sends == old(sends) + 1 && rc == old(NextRc())
      ensures if rc == 0 then credits == 0 else credits < old(credits)
      ensures log == old(log) + [e] && e == ReqSent(BlockAt(p, start, remoteMtu), next > 0, rc, reconfigure)
      ensures FactsOf(log) == Requested(FactsOf(old(log)), reconfigure)
    {
      hide NextStart, BlockAt, FactsOf;
      var options;
      next, options := BuildOptions(p, start);
      rc := Send();
      e := ReqSent(options, next > 0, rc, reconfigure);
      Record(e);
    }

    /** l2cap_config_send for a response (l2cap.c:625-721, msg_id set): one message. What
        does not fit waits for the peer's next request, unless the send returned 0. */
    method SendResponse(conf: ConfData) returns (next: ConfData)
      requires PendingOk(conf) && Means(state, FactsOf(log))
      modifies this`sends, this`credits, this`state, this`log
      ensures PendingOk(next) && next == conf.(hasPending := next.hasPending, startCmd := next.startCmd)
      ensures Means(state, FactsOf(log))
      ensures var start := if conf.hasPending then conf.startCmd else 0;
        var more := NextStart(conf.params, start, remoteMtu) > 0;
        var result := if conf.rejected != {} then RES_ERR_REJ else RES_OK;
        log == old(log) + [RspSent(BlockAt(conf.params, start, remoteMtu), more, result, old(NextRc()))] &&
        (next.hasPending <==> more && old(NextRc()) != 0) &&
        (next.hasPending ==> next.startCmd == NextStart(conf.params, start, remoteMtu)) &&
        state == (if IsFinishedPositive(log[|log| - 1]) then AfterFinishedPositive(old(state)) else old(state))
    {
      hide FactsOf, NextStart, BlockAt;
      var result := if conf.rejected != {} then RES_ERR_REJ else RES_OK;
      var start := 0;
      next := conf;
      if conf.hasPending {
        start := conf.startCmd;
        next := next.(hasPending := false);
      }
      var newStart, options := BuildOptions(conf.params, start);
      var rc := Send();
      ghost var facts := FactsOf(log);
      Record(RspSent(options, newStart > 0, result, rc));
      if rc != 0 && newStart > 0 {
        next := next.(hasPending := true, startCmd := newStart);
      }
      MeansAfterResponse(state, facts, log[|log| - 1]);
      if !next.hasPending && result == RES_OK {
        state := AfterFinishedPositive(state);
      }
    }

    /** bte_l2cap_configure (l2cap.c:1592-1626). A refusal changes nothing. */
    method Configure(p: Params) returns (ok: bool, ghost sent: seq<Event>)
      requires Valid()
      modifies this`sends, this`credits, this`state, this`expectedCode, this`expectedId, this`expectedCount
      modifies this`lastSignalId, this`log
      ensures Valid() && log == old(log) + sent && sends == old(sends) + |sent|
      ensures if MayConfigure(old(state)) && old(expectedCount) == 0
        then state == AfterRequest(old(state)) && StartsWith(sent, old(NextRc()))
             && AreRequests(sent, p, remoteMtu, old(state) == OPEN)
             && |sent| + credits <= old(credits) + (if ok then 0 else 1)
             && if ok then AfterTurns(p, remoteMtu, |sent|) == END_OF_OPTIONS && AllFit(p, remoteMtu)
                        && !IsQueued(sent[|sent| - 1])
                else IsQueued(sent[|sent| - 1]) && credits == 0
        else !ok && sent == [] && state == old(state) && credits == old(credits)
      ensures lastSignalId == IdAfter(old(lastSignalId), |sent|)
      ensures Expects() == Awaiting(old(Expects()), SIGNAL_CONFIG_RSP, lastSignalId,
                                    if ok || sent == [] then |sent| else |sent| - 1)
    {
      hide FactsOf, Means, AreRequests, AfterRequest, AfterTurns, AllFit, IsQueued;
      sent := [];
      if !MayConfigure(state) {
        return false, [];
      }
      if expectedCount > 0 {
        return false, [];
      }
      ok, sent := SendRequest(p);
    }

    /** l2cap_handle_config_resp (l2cap.c:735-818). `told` is what the client's callback is given. */
    method HandleConfigRsp(complete: bool, flags: nat, result: nat, len: nat, body: seq<byte>,
                           callbackDisconnects: bool)
      returns (ok: bool, ghost told: Option<ConfData>)
      requires Valid() && TakesResponses(state)
      modifies this`sends, this`credits, this`state, this`expectedCode, this`expectedId
      modifies this`expectedCount, this`lastSignalId, this`log, this`mtu, this`configureResp
      ensures Valid() && (ok <==> complete)
      ensures !complete ==> state == old(state) && log == old(log)
      ensures complete ==>
        log == old(log) + Receives(result, flags, old(expectedCount) == 1, callbackDisconnects, old(NextRc()))
      ensures complete && flags == 0 ==>
        state == if callbackDisconnects && old(NextRc()) >= 0 then WAIT_DISCONNECT
                 else AfterFinal(old(state), result == RES_OK)
      ensures complete && flags == 0 && !callbackDisconnects ==> sends == old(sends) && credits == old(credits)
      ensures complete && flags != 0 ==> state == old(state) && mtu == old(mtu)
      ensures complete ==>
        var stored := Stored(DataOf(old(configureResp)), result, if len >= 6 then len - 6 else 0, body);
        told == (if flags == 0 then Some(stored) else None) &&
        if flags != 0 then configureResp == Some(stored)
        else configureResp == None && mtu == if result == RES_OK then MtuOf(stored.params) else old(mtu)
      ensures !complete ==> told == None && configureResp == old(configureResp) && mtu == old(mtu)
      ensures !complete || (flags == 0 && !callbackDisconnects) || (flags != 0 && old(expectedCount) != 1) ==>
        Expects() == old(Expects()) && lastSignalId == old(lastSignalId)
      ensures complete && flags != 0 && old(expectedCount) == 1 ==>
        lastSignalId == NextId(old(lastSignalId)) &&
        Expects() == Awaiting(old(Expects()), SIGNAL_CONFIG_RSP, lastSignalId, if old(NextRc()) != 0 then 1 else 0)
      ensures complete && flags == 0 && callbackDisconnects ==>
        lastSignalId == NextId(old(lastSignalId)) &&
        Expects() == Awaiting(old(Expects()), SIGNAL_DISCONN_RSP, lastSignalId, 1)
    {
      hide FactsOf, Stored, Means, TakesResponses, Update, DataOf, MtuOf, AfterFinal, Told, Receives, NextId;
      if !complete {
        return false, None;
      }
      told := None;
      ghost var before := log;
      ResponseKeeps(state, FactsOf(log), result, flags);
      Record(RspReceived(result, flags));
      StoreResponse(result, if len >= 6 then len - 6 else 0, body);
      if flags == 0 {
        told := FinishResponse(result, callbackDisconnects);
      } else if expectedCount == 1 {
        AskForMore();
      }
      ReceivesInOrder(before, result, flags, old(expectedCount) == 1, callbackDisconnects, old(NextRc()));
      ok := true;
    }

    /** A null-option request, for which the peer sends more of its response. */
    method AskForMore()
      requires TakesResponses(state) && Means(state, FactsOf(log))
      modifies this`sends, this`credits, this`state, this`expectedCode, this`expectedId, this`expectedCount
      modifies this`lastSignalId, this`log
      ensures state == old(state) && Means(state, FactsOf(log))
      ensures log == old(log) + [ReqSent([], false, old(NextRc()), false)]
      ensures lastSignalId == NextId(old(lastSignalId))
      ensures Expects() ==
        Awaiting(old(Expects()), SIGNAL_CONFIG_RSP, lastSignalId, if old(NextRc()) != 0 then 1 else 0)
    {
      hide FactsOf, Means, AreRequests, AfterTurns, AllFit, StartsWith, Awaiting, NextId;
      ghost var id := lastSignalId;
      var _, sent := SendRequest(CLEARED);
      EmptyRequest(sent, remoteMtu, old(NextRc()));
      OneId(id);
    }

    /** The last response (l2cap.c:775-809): the state first falls back on a refusal, then
        the client is told, and then the state moves on if it is still what it was. */
    method FinishResponse(result: nat, callbackDisconnects: bool) returns (ghost told: Option<ConfData>)
      requires TakesResponses(state) && configureResp.Some?
      requires exists f :: Means(state, f) && FactsOf(log) == Update(f, RspReceived(result, 0))
      modifies this`sends, this`credits, this`state, this`expectedCode, this`expectedId
      modifies this`expectedCount, this`lastSignalId, this`log, this`mtu, this`configureResp
      ensures Means(state, FactsOf(log)) && log == Told(old(log), callbackDisconnects, old(NextRc()))
      ensures state == if callbackDisconnects && old(NextRc()) >= 0 then WAIT_DISCONNECT
                       else AfterFinal(old(state), result == RES_OK)
      ensures !callbackDisconnects ==> sends == old(sends) && credits == old(credits)
      ensures mtu == if result == RES_OK then MtuOf(old(configureResp).value.params) else old(mtu)
      ensures configureResp == None && told == old(configureResp)
      ensures lastSignalId == if callbackDisconnects then NextId(old(lastSignalId)) else old(lastSignalId)
      ensures Expects() ==
        Awaiting(old(Expects()), SIGNAL_DISCONN_RSP, lastSignalId, if callbackDisconnects then 1 else 0)
    {
      hide FactsOf, MtuOf, Stored, Means, Update, Told, NextId;
      told := configureResp;
      ghost var before, facts, rc := log, FactsOf(log), NextRc();
      FinalMeans(state, facts, result);
      DownMeans(rc, callbackDisconnects, before);
      if result == RES_OK {
        mtu := MtuOf(configureResp.value.params);
      } else if state == WAIT_CONFIG_RSP {
        state := WAIT_SEND_CONFIG;
      } else {
        state := WAIT_CONFIG;
      }
      if callbackDisconnects {
        Disconnect();
      }
      configureResp := None;
      if result == RES_OK {
        if state == WAIT_CONFIG_RSP {
          state := OPEN;
        } else if state == WAIT_CONFIG_REQ_RSP {
          state := WAIT_CONFIG_REQ;
        }
      }
    }

    /** l2cap.c:744-773. */
    method StoreResponse(result: nat, size: nat, body: seq<byte>)
      modifies this`configureResp
      ensures configureResp == Some(Stored(DataOf(old(configureResp)), result, size, body))
    {
      var conf := DataOf(configureResp);
      var p := conf.params;
      var reader := new ByteStream(body);
      if result == RES_ERR_PARAMS {
        var r := ConfigParse(reader, p.(mask := conf.rejected), size, false);
        conf := conf.(rejected := r.params.mask, params := r.params.(mask := r.params.mask + p.mask));
      } else if result == RES_ERR_UNKNOWN {
        var r := ConfigParse(reader, CLEARED, size, false);
        conf := conf.(unknown := r.params.mask);
      } else if result == RES_OK {
        var r := ConfigParse(reader, p, size, false);
        conf := conf.(params := r.params);
      }
      configureResp := Some(conf);
    }

    /** acl_l2cap_handle_configure_req (l2cap.c:923-1038), for a request with its fixed part.
        `answer` is what the client's callback sets as reply, if anything. */
    method HandleConfigureReq(cid: nat, flags: nat, len: nat, body: seq<byte>, stack: Stack, answer: Option<ConfReply>,
                              callbackDisconnects: bool)
      requires Valid() && len >= 4
      requires cid == localCid && TakesRequests(state) && !PendingIn(configureReq) ==>
        CanReply(body, len - 4, DataOf(configureReq).params, stack)
      modifies this`sends, this`credits, this`state, this`log, this`remoteMtu
      modifies this`expectedCode, this`expectedId, this`expectedCount, this`lastSignalId, this`configureReq
      ensures Valid()
      ensures cid != localCid || !TakesRequests(old(state)) ==>
        state == old(state) && log == old(log) && remoteMtu == old(remoteMtu) && configureReq == old(configureReq)
      ensures old(log) <= log && MovesOn(old(state), old(log), callbackDisconnects)
      ensures !callbackDisconnects ==> expectedCount == old(expectedCount)
      ensures cid == localCid && TakesRequests(old(state)) && PendingIn(old(configureReq)) ==>
        GoesOnWith(DataOf(old(configureReq)), old(log), old(remoteMtu), old(NextRc()))
      ensures cid == localCid && TakesRequests(old(state)) && !PendingIn(old(configureReq)) ==>
        Taken(DataOf(old(configureReq)), flags, Parse(body, len - 4, DataOf(old(configureReq)).params, true),
              SecondPass(body, len - 4, stack), answer, callbackDisconnects, old(state), old(log), old(remoteMtu),
              old(NextRc()))
    {
      hide *;
      StaysPut(state, log, callbackDisconnects);
      if cid != localCid || !TakesRequests(state) {
        return;
      }
      if PendingIn(configureReq) {
        SendPending();
        MovesOnAnyway(old(state), old(log), callbackDisconnects);
      } else {
        TakeNew(flags, len - 4, body, stack, answer, callbackDisconnects);
      }
    }

    /** The state moves on exactly when the last answer finishes a positive response, unless the client has taken the
        channel down. */
    ghost predicate MovesOn(stateBefore: State, before: seq<Event>, callbackDisconnects: bool)
      reads this`state, this`log
    {
      || (callbackDisconnects && !FactsOf(log).up)
      || state == if log != before && log != [] && IsFinishedPositive(log[|log| - 1])
                  then AfterFinishedPositive(stateBefore) else stateBefore
    }

    lemma StaysPut(stateBefore: State, before: seq<Event>, callbackDisconnects: bool)
      requires state == stateBefore && (log == before || (log != [] && !log[|log| - 1].RspSent?))
      ensures MovesOn(stateBefore, before, callbackDisconnects)
    {
      hide FactsOf;
    }

    lemma MovesOnAnyway(stateBefore: State, before: seq<Event>, callbackDisconnects: bool)
      requires MovesOn(stateBefore, before, false)
      ensures MovesOn(stateBefore, before, callbackDisconnects)
    {
      hide FactsOf, IsFinishedPositive, AfterFinishedPositive;
    }

    /** One more message of the pending response was sent, and what is left, if anything, stays pending. */
    ghost predicate GoesOnWith(conf: ConfData, before: seq<Event>, mtuBefore: nat, rc: int)
      reads this`remoteMtu, this`log, this`configureReq
    {
      && conf.startCmd <= MAX_WINDOW_SIZE && remoteMtu == mtuBefore
      && log == before + [RestOf(conf, remoteMtu, rc)]
      && configureReq == if RestOf(conf, remoteMtu, rc).more && rc != 0
                         then Some(conf.(startCmd := NextStart(conf.params, conf.startCmd, remoteMtu))) else None
    }

    /** The peer's request is a sign that it wants the rest of our response. */
    method SendPending()
      requires Valid() && PendingIn(configureReq)
      modifies this`sends, this`credits, this`state, this`log, this`configureReq
      ensures Valid() && old(log) <= log &&
        GoesOnWith(DataOf(old(configureReq)), old(log), old(remoteMtu), old(NextRc()))
      ensures MovesOn(old(state), old(log), false)
    {
      hide FactsOf, NextStart, BlockAt, IsFinishedPositive, AfterFinishedPositive;
      var conf := SendResponse(DataOf(configureReq));
      configureReq := if conf.hasPending then Some(conf) else None;
    }

    method TakeNew(flags: nat, size: nat, body: seq<byte>, stack: Stack, answer: Option<ConfReply>,
                   callbackDisconnects: bool)
      requires Valid() && TakesRequests(state) && !PendingIn(configureReq)
      requires CanReply(body, size, DataOf(configureReq).params, stack)
      modifies this`sends, this`credits, this`state, this`log, this`remoteMtu
      modifies this`expectedCode, this`expectedId, this`expectedCount, this`lastSignalId, this`configureReq
      ensures Valid() && old(log) <= log && MovesOn(old(state), old(log), callbackDisconnects)
      ensures !callbackDisconnects ==> expectedCount == old(expectedCount)
      ensures Taken(DataOf(old(configureReq)), flags, Parse(body, size, DataOf(old(configureReq)).params, true),
                    SecondPass(body, size, stack), answer, callbackDisconnects, old(state), old(log), old(remoteMtu),
                    old(NextRc()))
    {
      hide FactsOf, Parse, Answered, Means, MovesOn;
      var conf := TakeRequest(DataOf(configureReq), flags, size, body, stack, answer, callbackDisconnects);
      configureReq := if conf.hasPending || flags % 2 == 1 then Some(conf) else None;
    }

    /** What a request without anything pending leads to: unknown options are named, a
        corrupted one is ignored, a continued one is acknowledged and its options are kept,
        and the last one is answered. */
    ghost predicate Taken(conf: ConfData, flags: nat, r: Outcome, reply: Reply, answer: Option<ConfReply>,
                          callbackDisconnects: bool,
                          stateBefore: State, before: seq<Event>, mtuBefore: nat, rc: int)
      reads this`remoteMtu, this`log, this`state, this`configureReq
    {
      if r.code != Parsed || flags % 2 == 1 then
        && configureReq == (if flags % 2 == 1 then Some(conf.(params := r.params)) else None)
        && remoteMtu == mtuBefore && state == stateBefore
        && if r.code == UnknownType then
             reply.Sent? && log == before + [UnknownRspSent(r.unknownSize, reply.options)]
           else log == before + if r.code == Corrupted then [] else [AckSent]
      else
        && Answered(conf.(params := r.params), answer, Told(before, callbackDisconnects, rc), mtuBefore)
        && (!callbackDisconnects ==> log[|log| - 1].rc == rc)
        && configureReq == StillToSend(Agreed(Replied(conf.(params := r.params), answer)), remoteMtu, log[|log| - 1])
    }

    method TakeRequest(conf: ConfData, flags: nat, size: nat, body: seq<byte>, stack: Stack, answer: Option<ConfReply>,
                       callbackDisconnects: bool)
      returns (next: ConfData)
      requires Valid() && TakesRequests(state) && !conf.hasPending && CanReply(body, size, conf.params, stack)
      modifies this`sends, this`credits, this`state, this`log, this`remoteMtu, this`expectedCode, this`expectedId
      modifies this`expectedCount, this`lastSignalId
      ensures Means(state, FactsOf(log)) && PendingOk(next) && old(log) <= log
      ensures MovesOn(old(state), old(log), callbackDisconnects)
      ensures !callbackDisconnects ==> expectedCount == old(expectedCount)
      ensures var r := Parse(body, size, conf.params, true);
        if r.code != Parsed || flags % 2 == 1 then
          && next == conf.(params := r.params) && remoteMtu == old(remoteMtu) && state == old(state)
          && if r.code == UnknownType then
               SecondPass(body, size, stack).Sent? &&
               log == old(log) + [UnknownRspSent(r.unknownSize, SecondPass(body, size, stack).options)]
             else log == old(log) + if r.code == Corrupted then [] else [AckSent]
        else
          && Answered(conf.(params := r.params), answer, Told(old(log), callbackDisconnects, old(NextRc())),
                      old(remoteMtu))
          && (!callbackDisconnects ==> log[|log| - 1].rc == old(NextRc()))
          && (if next.hasPending then Some(next) else None) ==
             StillToSend(Agreed(Replied(conf.(params := r.params), answer)), remoteMtu, log[|log| - 1])
    {
      hide FactsOf, NextStart, BlockAt, Parse, Answered, Told, SecondPass, DataOf, TakesRequests, MovesOn, Agreed,
        Replied, StillToSend;
      var reader := new ByteStream(body);
      var r := ConfigParse(reader, conf.params, size, true);
      next := conf.(params := r.params);
      if r.code == UnknownType {
        var readerCopy := new ByteStream(body);
        var options := ReplyTypeError(readerCopy, size, stack);
        var _ := Send();
        Record(UnknownRspSent(r.unknownSize, options));
        StaysPut(old(state), old(log), callbackDisconnects);
      } else if r.code == Corrupted {
        StaysPut(old(state), old(log), callbackDisconnects);
      } else if flags % 2 == 1 {
        var _ := Send();
        Record(AckSent);
        StaysPut(old(state), old(log), callbackDisconnects);
      } else {
        next := AnswerRequest(next, answer, callbackDisconnects);
      }
    }

    /** The peer's MTU is applied, and the answer is sent. */
    ghost predicate Answered(conf: ConfData, answer: Option<ConfReply>, before: seq<Event>, mtuBefore: nat)
      reads this`remoteMtu, this`log
    {
      && remoteMtu == AgreedMtu(conf, answer, mtuBefore)
      && |log| == |before| + 1 && before <= log && AnswersWith(conf, answer, remoteMtu, log[|log| - 1])
    }

    /** The client is told, and may tear the channel down. */
    method TellClient(callbackDisconnects: bool)
      requires Means(state, FactsOf(log)) && TakesRequests(state)
      modifies this`sends, this`credits, this`state, this`log, this`expectedCode, this`expectedId, this`expectedCount
      modifies this`lastSignalId
      ensures Means(state, FactsOf(log)) && log == Told(old(log), callbackDisconnects, old(NextRc()))
      ensures state == old(state) || (callbackDisconnects && IsGone(state))
      ensures !callbackDisconnects ==> NextRc() == old(NextRc()) && expectedCount == old(expectedCount)
    {
      hide FactsOf;
      if callbackDisconnects {
        Disconnect();
      }
    }

    /** l2cap_config_apply for the peer's parameters, and the MTU that goes into the answer. */
    method Apply(conf: ConfData) returns (next: ConfData)
      modifies this`remoteMtu
      ensures next == Agreed(conf) && remoteMtu == if conf.rejected == {} then MtuOf(conf.params) else old(remoteMtu)
    {
      next := conf;
      if conf.rejected == {} {
        remoteMtu := MtuOf(conf.params);
        assert MTU in conf.params.mask ==> conf.params.mask + {MTU} == conf.params.mask;
        if MTU !in conf.params.mask {
          next := conf.(params := conf.params.(mtu := remoteMtu, mask := conf.params.mask + {MTU}));
        }
      }
    }

    /** The last message of a request: the client is asked, the parameters are applied, and
        the response goes out (l2cap.c:1000-1017). */
    method AnswerRequest(conf: ConfData, answer: Option<ConfReply>, callbackDisconnects: bool) returns (next: ConfData)
      requires Valid() && TakesRequests(state) && !conf.hasPending
      modifies this`sends, this`credits, this`state, this`log, this`remoteMtu, this`expectedCode, this`expectedId
      modifies this`expectedCount, this`lastSignalId
      ensures Means(state, FactsOf(log)) && PendingOk(next)
      ensures old(log) < log && (!callbackDisconnects ==> log[|log| - 1].RspSent? && log[|log| - 1].rc == old(NextRc()))
      ensures MovesOn(old(state), old(log), callbackDisconnects)
      ensures !callbackDisconnects ==> expectedCount == old(expectedCount)
      ensures Answered(conf, answer, Told(old(log), callbackDisconnects, old(NextRc())), old(remoteMtu))
      ensures (if next.hasPending then Some(next) else None) ==
        StillToSend(Agreed(Replied(conf, answer)), remoteMtu, log[|log| - 1])
    {
      hide FactsOf, NextStart, BlockAt, Means, Agreed, Replied, MtuOf, AfterFinishedPositive, IsFinishedPositive,
        IsGone;
      AnswerKeeps(conf, answer);
      TellClient(callbackDisconnects);
      next := Apply(Replied(conf, answer));
      ghost var now := state;
      next := SendResponse(next);
      StaysGone(now, state, FactsOf(log));
    }
  }

  /** What a response carries is collected until the last one (l2cap.c:744-773). */
  ghost function Stored(conf: ConfData, result: nat, size: nat, body: seq<byte>): ConfData {
    if result == RES_ERR_PARAMS then
      var r := Parse(body, size, conf.params.(mask := conf.rejected), false).params;
      conf.(rejected := r.mask, params := r.(mask := r.mask + conf.params.mask))
    else if result == RES_ERR_UNKNOWN then conf.(unknown := Parse(body, size, CLEARED, false).params.mask)
    else if result == RES_OK then conf.(params := Parse(body, size, conf.params, false).params)
    else conf
  }

  /** The record with what the client set as its reply. */
  function Replied(conf: ConfData, answer: Option<ConfReply>): ConfData {
    if answer == None then conf
    else conf.(rejected := answer.value.rejected, params := SetReply(conf.params, answer.value.params))
  }

  /** The record with the MTU among the parameters, unless something was rejected. */
  function Agreed(conf: ConfData): ConfData {
    if conf.rejected != {} then conf
    else conf.(params := conf.params.(mtu := MtuOf(conf.params), mask := conf.params.mask + {MTU}))
  }

  /** What is left to send of an answer after its first message e: nothing if that was the last one or its send
      returned 0, and otherwise the options from the first one that did not fit. */
  function StillToSend(own: ConfData, limit: nat, e: Event): Option<ConfData> {
    if e.RspSent? && e.more && e.rc != 0 then
      Some(own.(hasPending := true, startCmd := NextStart(own.params, 0, limit)))
    else None
  }

  /** The peer's MTU, unless the client rejects the request. */
  function AgreedMtu(conf: ConfData, answer: Option<ConfReply>, mtuBefore: nat): nat {
    var own := Replied(conf, answer);
    if own.rejected == {} then MtuOf(own.params) else mtuBefore
  }

  /** The answer carries the parameters agreed, always with the MTU among them, as far as they fit. */
  predicate AnswersWith(conf: ConfData, answer: Option<ConfReply>, limit: nat, e: Event) {
    var own := Replied(conf, answer);
    var sent := Agreed(own).params;
    && e.RspSent? && e.result == (if own.rejected == {} then RES_OK else RES_ERR_REJ)
    && e.options == BlockAt(sent, 0, limit) && (e.more <==> NextStart(sent, 0, limit) > 0)
  }

  lemma AnswerKeeps(conf: ConfData, answer: Option<ConfReply>)
    ensures var next := Agreed(Replied(conf, answer));
      next.hasPending == conf.hasPending && next.rejected == Replied(conf, answer).rejected
  {
  }

  /** The states after the client has taken the channel down. */
  predicate IsGone(s: State) {
    s == WAIT_DISCONNECT || s == CLOSED
  }

  lemma StaysGone(before: State, after: State, f: Facts)
    requires Means(after, f)
    ensures IsGone(before) && (after == before || after == AfterFinishedPositive(before)) ==> !f.up
  {
  }

  lemma MeansAfterResponse(s: State, f: Facts, e: Event)
    requires Means(s, f) && e.RspSent?
    ensures Means(if IsFinishedPositive(e) then AfterFinishedPositive(s) else s, Update(f, e))
  {
  }

  /** A response that is not the last one keeps the meaning of the state. */
  lemma ResponseKeeps(s: State, f: Facts, result: nat, flags: nat)
    requires TakesResponses(s) && Means(s, f)
    ensures flags != 0 ==> Means(s, Update(f, RspReceived(result, flags)))
  {
  }

  /** The last response moves the state as its meaning demands. */
  lemma FinalMeans(s: State, after: Facts, result: nat)
    requires TakesResponses(s) && exists f :: Means(s, f) && after == Update(f, RspReceived(result, 0))
    ensures Means(AfterFinal(s, result == RES_OK), after)
  {
  }

  lemma DownMeans(rc: int, callbackDisconnects: bool, before: seq<Event>)
    ensures forall f: Facts :: !f.up ==> Means(WAIT_DISCONNECT, f)
    ensures Told(before, callbackDisconnects, rc) ==
      if callbackDisconnects && rc >= 0 then before + [DisconnReqSent] else before
  {
  }

  lemma MeansAfterRequest(s: State, f: Facts)
    requires Means(s, f) && Rank(s) >= Rank(WAIT_CONFIG) && s != WAIT_CONFIG_REQ && s != WAIT_DISCONNECT
    ensures Means(AfterRequest(s), Requested(f, s == OPEN))
  {
  }

  /** Where the request loop stands: what was sent, and the start command for the next turn. */
  ghost predicate Sending(p: Params, limit: nat, reconfigure: bool, start: nat, sent: seq<Event>, done: bool,
                          ok: bool) {
    && AreRequests(sent, p, limit, reconfigure)
    && (!done ==> start <= MAX_WINDOW_SIZE && First(start) == AfterTurns(p, limit, |sent|)
                  && ok && (sent != [] ==> Continued(sent[|sent| - 1])))
    && (done ==> sent != [])
    && (done ==> if ok then AfterTurns(p, limit, |sent|) == END_OF_OPTIONS && !IsQueued(sent[|sent| - 1])
                 else IsQueued(sent[|sent| - 1]))
  }

  ghost predicate FactsAfter(before: Facts, now: Facts, sent: seq<Event>, reconfigure: bool) {
    now == if sent == [] then before else Requested(before, reconfigure)
  }

  lemma NothingSent(p: Params, limit: nat, reconfigure: bool)
    ensures Sending(p, limit, reconfigure, 0, [], false, true)
    ensures forall f :: FactsAfter(f, f, [], reconfigure)
  {
  }

  /** There is a first message, and the result of its send is known. */
  predicate StartsWith(sent: seq<Event>, rc: int) {
    sent != [] && sent[0].ReqSent? && sent[0].rc == rc
  }

  lemma StillStartsWith(sent: seq<Event>, e: Event, rc: int)
    requires if sent == [] then e.ReqSent? && e.rc == rc else StartsWith(sent, rc)
    ensures StartsWith(sent + [e], rc)
  {
  }

  /** A request without options is one message. */
  lemma EmptyRequest(sent: seq<Event>, limit: nat, rc: int)
    requires AreRequests(sent, CLEARED, limit, false) && StartsWith(sent, rc)
    ensures sent == [ReqSent([], false, rc, false)]
  {
    assert Encode(CLEARED, 1, 8) == [] by {
      assert Encode(CLEARED, 5, 8) == [];
      assert Encode(CLEARED, 3, 8) == [];
    }
    assert StopFrom(CLEARED, 1, 0, limit) == 8 by {
      assert StopFrom(CLEARED, 5, 0, limit) == 8;
      assert StopFrom(CLEARED, 3, 0, limit) == 8;
    }
    assert AfterTurns(CLEARED, limit, 0) == 1;
    assert AfterTurns(CLEARED, limit, 1) == 8;
    assert !sent[0].more && |sent| == 1;
    assert sent[0].options == BlockOfTurn(CLEARED, limit, 0);
  }

  /** The ids drawn and the responses expected, with n messages sent. While the loop goes on, the id of the next message
      is drawn already; a message that was only queued is not counted. */
  ghost predicate Counted(before: Awaited, now: Awaited, first: byte, last: byte, n: nat, done: bool, ok: bool) {
    && (n == 0 ==> ok && !done)
    && last == IdAfter(first, if done then n else n + 1)
    && now == Awaiting(before, SIGNAL_CONFIG_RSP, last, if ok then n else n - 1)
  }

  lemma FirstId(before: Awaited, first: byte)
    ensures Counted(before, before, first, NextId(first), 0, false, true)
  {
    assert IdAfter(first, 1) == NextId(IdAfter(first, 0));
  }

  lemma NothingMoreAwaited(before: Awaited, id: byte)
    ensures Awaiting(before, SIGNAL_CONFIG_RSP, id, 0) == before
  {
  }

  lemma CountOne(before: Awaited, now: Awaited, after: Awaited, first: byte, last: byte, next: byte, n: nat, ok: bool,
                 done: bool)
    requires Counted(before, now, first, last, n, false, true) && (!ok ==> done)
    requires next == if done then last else NextId(last)
    requires after == Awaiting(now, SIGNAL_CONFIG_RSP, next, if ok then 1 else 0)
    ensures Counted(before, after, first, next, n + 1, done, ok)
  {
    assert ((before.count + n) % 256 + 1) % 256 == (before.count + n + 1) % 256;
    assert IdAfter(first, n + 2) == NextId(IdAfter(first, n + 1));
  }

  lemma AllCounted(before: Awaited, now: Awaited, first: byte, last: byte, n: nat, ok: bool)
    requires Counted(before, now, first, last, n, true, ok)
    ensures last == IdAfter(first, n) && now == Awaiting(before, SIGNAL_CONFIG_RSP, last, if ok then n else n - 1)
  {
  }

  lemma FactsGoOn(before: Facts, now: Facts, sent: seq<Event>, e: Event, reconfigure: bool)
    requires FactsAfter(before, now, sent, reconfigure)
    ensures FactsAfter(before, Requested(now, reconfigure), sent + [e], reconfigure)
  {
  }

  lemma AllSent(p: Params, limit: nat, reconfigure: bool, start: nat, sent: seq<Event>, ok: bool, before: Facts,
                now: Facts)
    requires Sending(p, limit, reconfigure, start, sent, true, ok) && FactsAfter(before, now, sent, reconfigure)
    ensures sent != [] && AreRequests(sent, p, limit, reconfigure) && now == Requested(before, reconfigure)
    ensures if ok then AfterTurns(p, limit, |sent|) == END_OF_OPTIONS && !IsQueued(sent[|sent| - 1])
            else IsQueued(sent[|sent| - 1])
  {
  }

  lemma StartsInRange(p: Params, limit: nat, reconfigure: bool, start: nat, sent: seq<Event>)
    requires Sending(p, limit, reconfigure, start, sent, false, true)
    ensures start <= MAX_WINDOW_SIZE
  {
  }

  /** One more message, built from the start command, and with the result of its send. */
  lemma NextIsSent(p: Params, limit: nat, reconfigure: bool, start: nat, was: seq<Event>, e: Event)
    requires Sending(p, limit, reconfigure, start, was, false, true) && start <= MAX_WINDOW_SIZE
    requires e.ReqSent? && e == ReqSent(BlockAt(p, start, limit), NextStart(p, start, limit) > 0, e.rc, reconfigure)
    ensures var ok, next := e.rc != 0, NextStart(p, start, limit);
      Sending(p, limit, reconfigure, next, was + [e], !ok || next == 0, ok)
  {
    hide BlockAt, NextStart, BlockOfTurn, AfterTurns, AreRequests;
    TurnOf(p, start, limit, |was|);
    RequestStep(was, p, limit, e, reconfigure);
  }

  lemma RequestStep(sent: seq<Event>, p: Params, limit: nat, e: Event, reconfigure: bool)
    requires AreRequests(sent, p, limit, reconfigure) && (sent != [] ==> Continued(sent[|sent| - 1]))
    requires e.ReqSent? && e.options == BlockOfTurn(p, limit, |sent|) && e.reconfigure == reconfigure
    requires e.more <==> AfterTurns(p, limit, |sent| + 1) != END_OF_OPTIONS
    ensures AreRequests(sent + [e], p, limit, reconfigure)
  {
    hide BlockOfTurn, AfterTurns;
  }
}
