/** Runs of a channel: any sequence of local calls and messages from the peer. */
module L2capRuns {
  import opened Prelude
  import opened Bytes
  import opened AclCredits
  import opened Temporal
  import opened L2capOptions
  import opened L2capConfig
  import opened L2capParse
  import opened L2capRoundTrip
  import opened L2capUnknown
  import opened L2capEvents
  import opened L2capChannel

  datatype Step =
    | LocalConnect(newCid: nat)
    | LocalConfigure(params: Params)
    | LocalDisconnect
    | LocalCommand(responseCode: nat)
    | PeerConnects(newCid: nat, peerCid: nat)
    | PeerConfigures(cid: nat, flags: nat, len: nat, body: seq<byte>, stack: Stack, answer: Option<ConfReply>,
                     callbackDisconnects: bool)
    | PeerDisconnects(cid: nat)
    | PeerResponds(id: nat, response: Response)
    | LinkGoes
    | OthersTakeSignalIds(last: byte)
    | CreditsChange(credits: nat)

  /** What a channel knows, and what its next send will return. */
  datatype View = View(state: State, localCid: nat, remoteCid: nat, remoteMtu: nat, expectedCode: nat,
                       expectedId: nat, expectedCount: nat, configureReq: Option<ConfData>,
                       configureResp: Option<ConfData>, mtu: nat, credits: nat, rc: int)

  function ViewOf(c: Channel): View
    reads c
  {
    View(c.state, c.localCid, c.remoteCid, c.remoteMtu, c.expectedCode, c.expectedId, c.expectedCount,
         c.configureReq, c.configureResp, c.mtu, c.credits, c.NextRc())
  }

  // ----- what each step adds to the log -----

  /** A response counts only while one is expected, with the id and the code that are expected. */
  predicate IsExpected(v: View, id: nat, r: Response) {
    v.expectedCount > 0 && id == v.expectedId && CodeOf(r) == v.expectedCode
  }

  function AddsOnResponse(v: View, id: nat, r: Response): seq<Event> {
    if !IsExpected(v, id, r) then [] else AddsOnHandling(Fewer(v), r)
  }

  /** One response fewer is expected. */
  function Fewer(v: View): View
    requires v.expectedCount > 0
  {
    v.(expectedCount := v.expectedCount - 1)
  }

  function AddsOnHandling(v: View, r: Response): seq<Event> {
    match r
    case ConnRsp(complete, _, _, result) =>
      if v.state != WAIT_CONNECT_RSP || !complete || result == CONN_RES_PENDING then []
      else if result == CONN_RES_OK then [Connected] else [Disconnected]
    case ConfigRsp(complete, flags, result, _, _, disconnects) =>
      if !TakesResponses(v.state) || !complete then []
      else Receives(result, flags, v.expectedCount == 1, disconnects, v.rc)
    case DisconnRsp(_, _, _) => if IsTaken(v, r) then [Disconnected] else []
    case OtherRsp(_) => []
  }

  /** The handler takes the response as an answer. */
  predicate IsTaken(v: View, r: Response) {
    match r
    case ConnRsp(complete, _, local, result) =>
      v.state == WAIT_CONNECT_RSP && complete &&
      (result > CONN_RES_PENDING || (result == CONN_RES_OK && local == v.localCid))
    case ConfigRsp(complete, _, _, _, _, _) => TakesResponses(v.state) && complete
    case DisconnRsp(complete, dest, source) =>
      v.state == WAIT_DISCONNECT && complete && dest == v.remoteCid && source == v.localCid
    case OtherRsp(code) => code == SIGNAL_ECHO_RSP || code == SIGNAL_INFO_RSP
  }

  /** What is awaited after a response was taken: one more if taking it has sent another request, which has the id
      `last` then. */
  function AwaitedAfter(v: View, r: Response, last: nat): Awaited {
    var before := Awaited(v.expectedCode, v.expectedId, v.expectedCount);
    if r.ConfigRsp? && r.flags != 0 then
      Awaiting(before, SIGNAL_CONFIG_RSP, last, if v.expectedCount == 1 && v.rc != 0 then 1 else 0)
    else Awaiting(before, SIGNAL_DISCONN_RSP, last, if r.ConfigRsp? && r.callbackDisconnects then 1 else 0)
  }

  predicate AddsOnRequest(v: View, flags: nat, size: nat, body: seq<byte>, stack: Stack, answer: Option<ConfReply>,
                          disconnects: bool, added: seq<Event>) {
    var conf := DataOf(v.configureReq);
    var r, reply := Parse(body, size, conf.params, true), SecondPass(body, size, stack);
    if conf.hasPending then conf.startCmd <= MAX_WINDOW_SIZE && added == [RestOf(conf, v.remoteMtu, v.rc)]
    else if r.code == UnknownType then reply.Sent? && added == [UnknownRspSent(r.unknownSize, reply.options)]
    else if r.code == Corrupted then added == []
    else if flags % 2 == 1 then added == [AckSent]
    else
      var whole := conf.(params := r.params);
      && |added| == |Told([], disconnects, v.rc)| + 1 && Told([], disconnects, v.rc) <= added
      && AnswersWith(whole, answer, AgreedMtu(whole, answer, v.remoteMtu), added[|added| - 1])
      && (!disconnects ==> added[|added| - 1].rc == v.rc)
  }

  /** A request goes out whole, or until a message is only queued for want of credits. */
  predicate AddsOnConfigure(v: View, p: Params, added: seq<Event>) {
    if !MayConfigure(v.state) || v.expectedCount > 0 then added == []
    else
      && StartsWith(added, v.rc) && |added| <= v.credits + 1
      && AreRequests(added, p, v.remoteMtu, v.state == OPEN)
      && if IsQueued(added[|added| - 1]) then true
         else AllFit(p, v.remoteMtu) && AfterTurns(p, v.remoteMtu, |added|) == END_OF_OPTIONS
  }

  predicate Adds(v: View, step: Step, added: seq<Event>) {
    match step
    case LocalConnect(_) => added == if Rank(v.state) <= Rank(WAIT_CONNECT) && v.rc >= 0 then [ConnReqSent] else []
    case LocalConfigure(params) => AddsOnConfigure(v, params, added)
    case LocalDisconnect =>
      added == if Rank(v.state) < Rank(WAIT_CONFIG) then [Disconnected] else Told([], true, v.rc)
    case LocalCommand(_) => added == []
    case PeerConnects(_, _) => added == if v.state == CLOSED then [Connected] else []
    case PeerConfigures(cid, flags, len, body, stack, answer, disconnects) =>
      if len < 4 || cid != v.localCid || !TakesRequests(v.state) then added == []
      else AddsOnRequest(v, flags, len - 4, body, stack, answer, disconnects, added)
    case PeerDisconnects(cid) => added == if cid == v.localCid then [Disconnected] else []
    case PeerResponds(id, response) => added == AddsOnResponse(v, id, response)
    case LinkGoes => added == [LinkLost]
    case OthersTakeSignalIds(_) => added == []
    case CreditsChange(_) => added == []
  }

  /** What the handler of a response makes of the channel. A final configuration response sets the MTU and ends the
      collecting; a connection response gives the peer's channel id, even one that is pending or for another channel. */
  ghost predicate Handled(v: View, now: View, r: Response) {
    && now.localCid == v.localCid && now.remoteMtu == v.remoteMtu && now.configureReq == v.configureReq
    && now.remoteCid == (if r.ConnRsp? && v.state == WAIT_CONNECT_RSP && r.complete && r.result <= CONN_RES_PENDING
                         then r.remote else v.remoteCid)
    && (if r.ConfigRsp? && TakesResponses(v.state) && r.complete then
          var stored := Stored(DataOf(v.configureResp), r.result, if r.len >= 6 then r.len - 6 else 0, r.body);
          && now.configureResp == (if r.flags == 0 then None else Some(stored))
          && now.mtu == if r.flags == 0 && r.result == RES_OK then MtuOf(stored.params) else v.mtu
        else now.configureResp == v.configureResp && now.mtu == v.mtu)
    && now.state == StateAfter(v, r)
    && (r.OtherRsp? ==> now.credits == v.credits && now.rc == v.rc)
  }

  function StateAfter(v: View, r: Response): State {
    match r
    case ConnRsp(complete, _, _, result) =>
      if v.state != WAIT_CONNECT_RSP || !complete || result == CONN_RES_PENDING then v.state
      else if result == CONN_RES_OK then WAIT_CONFIG else CLOSED
    case ConfigRsp(complete, flags, result, _, _, disconnects) =>
      if !TakesResponses(v.state) || !complete || flags != 0 then v.state
      else if disconnects && v.rc >= 0 then WAIT_DISCONNECT
      else AfterFinal(v.state, result == RES_OK)
    case DisconnRsp(_, _, _) => if IsTaken(v, r) then CLOSED else v.state
    case OtherRsp(_) => v.state
  }

  /** l2cap_handle_response (l2cap.c:1222-1251), with the response already taken off the count. */
  method HandleResponse(c: Channel, r: Response) returns (ok: bool)
    requires c.Valid()
    modifies c
    ensures c.Valid() && c.log == old(c.log) + AddsOnHandling(old(ViewOf(c)), r)
    ensures ok <==> IsTaken(old(ViewOf(c)), r)
    ensures Handled(old(ViewOf(c)), ViewOf(c), r)
    ensures c.Expects() == if ok then AwaitedAfter(old(ViewOf(c)), r, c.lastSignalId) else old(c.Expects())
  {
    hide FactsOf, Means, Receives, AfterFinal, TakesResponses, Stored, DataOf, MtuOf, NextId;
    ok := false;
    match r {
    case ConnRsp(complete, remote, local, result) =>
      if c.state == WAIT_CONNECT_RSP {
        ok := c.HandleConnRsp(complete, remote, local, result);
      }
    case ConfigRsp(complete, flags, result, len, body, disconnects) =>
      if TakesResponses(c.state) {
        var taken, _ := c.HandleConfigRsp(complete, flags, result, len, body, disconnects);
        ok := taken;
      }
    case DisconnRsp(complete, dest, source) =>
      if c.state == WAIT_DISCONNECT {
        ok := c.HandleDisconnRsp(complete, dest, source);
      }
    case OtherRsp(code) =>
      ok := code == SIGNAL_ECHO_RSP || code == SIGNAL_INFO_RSP;
    }
  }

  /** A response is dispatched by its id and code while one is expected
      (l2cap.c:1253-1281). What a response cannot match changes nothing. */
  method Dispatch(c: Channel, id: nat, r: Response)
    requires c.Valid()
    modifies c
    ensures c.Valid() && c.log == old(c.log) + AddsOnResponse(old(ViewOf(c)), id, r)
    ensures if IsExpected(old(ViewOf(c)), id, r) then Handled(old(ViewOf(c)), ViewOf(c), r)
            else ViewOf(c) == old(ViewOf(c))
    ensures c.Expects() == if IsExpected(old(ViewOf(c)), id, r) && IsTaken(old(ViewOf(c)), r)
                           then AwaitedAfter(Fewer(old(ViewOf(c))), r, c.lastSignalId) else old(c.Expects())
  {
    hide FactsOf, Means, Receives, AfterFinal, TakesResponses, Stored, DataOf, MtuOf, Awaiting;
    if c.expectedCount == 0 || id != c.expectedId {
      return;
    }
    if CodeOf(r) != c.expectedCode && CodeOf(r) != SIGNAL_CMD_REJ {
      return;
    }
    ghost var v := ViewOf(c);
    c.expectedCount := c.expectedCount - 1;
    var ok := HandleResponse(c, r);
    if !ok {
      c.expectedCount := (c.expectedCount + 1) % 256;
    }
  }

  /** The step enters a loop that never ends: the copy of an unknown option of more than 224 bytes. (A request of
      nearly 64 KiB with unknown options, over which the 16-bit counter of the walk can wrap, stops a run as well.) */
  predicate Stuck(v: View, step: Step) {
    match step
    case PeerConfigures(cid, _, len, body, stack, _, _) =>
      len >= 4 && cid == v.localCid && TakesRequests(v.state) && !PendingIn(v.configureReq) &&
      !CanReply(body, len - 4, DataOf(v.configureReq).params, stack)
    case LocalConnect(_) => false
    case LocalConfigure(_) => false
    case LocalDisconnect => false
    case LocalCommand(_) => false
    case PeerConnects(_, _) => false
    case PeerDisconnects(_) => false
    case PeerResponds(_, _) => false
    case LinkGoes => false
    case OthersTakeSignalIds(_) => false
    case CreditsChange(_) => false
  }

  /** A step that never returns: a peer's option of 225 bytes with an unknown number. */
  lemma NeverReturns(v: View, flags: nat, stack: Stack, answer: Option<ConfReply>, disconnects: bool)
    requires TakesRequests(v.state) && !PendingIn(v.configureReq)
    ensures Stuck(v, PeerConfigures(v.localCid, flags, 231, WireBytes(Unnamed(225)), stack, answer, disconnects))
  {
    var body := WireBytes(Unnamed(225));
    hide Parse, SecondPass, Unnamed, WireBytes;
    SlipExamples([], DataOf(v.configureReq).params, stack);
    assert body + [] == body;
  }

  /** The peer's configuration request, unless it lacks its fixed part. */
  method PeerRequests(c: Channel, cid: nat, flags: nat, len: nat, body: seq<byte>, stack: Stack,
                      answer: Option<ConfReply>, disconnects: bool)
    returns (ghost added: seq<Event>)
    requires c.Valid() && !Stuck(ViewOf(c), PeerConfigures(cid, flags, len, body, stack, answer, disconnects))
    modifies c
    ensures c.Valid() && c.log == old(c.log) + added
    ensures Adds(old(ViewOf(c)), PeerConfigures(cid, flags, len, body, stack, answer, disconnects), added)
  {
    hide FactsOf, Means, Parse, SecondPass, AnswersWith, RestOf, DataOf, AgreedMtu, NextStart;
    added := [];
    if len >= 4 {
      ghost var before, v := c.log, ViewOf(c);
      c.HandleConfigureReq(cid, flags, len, body, stack, answer, disconnects);
      added := Added(before, c.log);
      if cid == v.localCid && TakesRequests(v.state) {
        if PendingIn(v.configureReq) {
          OneBehind(before, RestOf(DataOf(v.configureReq), v.remoteMtu, v.rc));
        } else {
          TakenAdds(c, v, flags, len - 4, body, stack, answer, disconnects, before, added);
        }
      }
    }
  }

  function Added(before: seq<Event>, log: seq<Event>): (added: seq<Event>)
    requires before <= log
    ensures log == before + added
  {
    log[|before|..]
  }

  lemma OneBehind(before: seq<Event>, e: Event)
    ensures Added(before, before + [e]) == [e]
  {
  }

  /** What a request without anything pending leads to, as an addition to the log. */
  lemma TakenAdds(c: Channel, v: View, flags: nat, size: nat, body: seq<byte>, stack: Stack, answer: Option<ConfReply>,
                  disconnects: bool, before: seq<Event>, added: seq<Event>)
    requires !PendingIn(v.configureReq) && c.log == before + added
    requires c.Taken(DataOf(v.configureReq), flags, Parse(body, size, DataOf(v.configureReq).params, true),
                     SecondPass(body, size, stack), answer, disconnects, v.state, before, v.remoteMtu, v.rc)
    ensures AddsOnRequest(v, flags, size, body, stack, answer, disconnects, added)
  {
    hide Parse, SecondPass, AnswersWith, DataOf, AgreedMtu, StillToSend, Agreed, Replied;
    assert Told(before, disconnects, v.rc) == before + Told([], disconnects, v.rc);
    assert |added| == |c.log| - |before|;
    assert forall i :: 0 <= i < |added| ==> added[i] == c.log[|before| + i];
  }

  /** A request from the client. */
  method ClientRequests(c: Channel, p: Params) returns (ghost added: seq<Event>)
    requires c.Valid()
    modifies c
    ensures c.Valid() && c.log == old(c.log) + added && AddsOnConfigure(old(ViewOf(c)), p, added)
  {
    hide FactsOf, Means, AreRequests, AfterTurns, AllFit, IsQueued, StartsWith, AfterRequest;
    var _, sent := c.Configure(p);
    added := sent;
  }

  /** The other steps. */
  predicate IsSimple(step: Step) {
    !step.LocalConfigure? && !step.PeerConfigures? && !step.PeerResponds?
  }

  method PerformSimple(c: Channel, step: Step) returns (ghost added: seq<Event>)
    requires c.Valid() && IsSimple(step)
    modifies c
    ensures c.Valid() && c.log == old(c.log) + added && Adds(old(ViewOf(c)), step, added)
  {
    hide FactsOf;
    ghost var before := c.log;
    match step {
    case LocalConnect(newCid) => var _ := c.ConnectionRequest(newCid);
    case LocalDisconnect => c.Disconnect();
    case LocalCommand(responseCode) => var _ := c.Signal(responseCode);
    case PeerConnects(newCid, peerCid) =>
      if c.state == CLOSED {
        c.AcceptConnection(newCid, peerCid);
      }
    case PeerDisconnects(cid) => c.HandleDisconnReq(cid);
    case LinkGoes => c.LinkGone();
    case OthersTakeSignalIds(last) => c.lastSignalId := last;
    case CreditsChange(credits) => c.credits := credits;
    }
    added := Added(before, c.log);
  }

  /** One step. It returns exactly if it enters no loop without end; otherwise the run stops in front of it. What it
      adds to the log follows from the step and from what the channel knew before. */
  method Perform(c: Channel, step: Step) returns (returned: bool, ghost added: seq<Event>)
    requires c.Valid()
    modifies c
    ensures c.Valid() && c.log == old(c.log) + added
    ensures returned <==> !Stuck(old(ViewOf(c)), step)
    ensures if returned then Adds(old(ViewOf(c)), step, added) else unchanged(c) && added == []
  {
    hide FactsOf, Means, AddsOnConfigure, AddsOnResponse, AddsOnRequest, Stuck;
    added := [];
    returned := !Stuck(ViewOf(c), step);
    if !returned {
      return;
    }
    if step.LocalConfigure? {
      added := ClientRequests(c, step.params);
    } else if step.PeerConfigures? {
      added := PeerRequests(c, step.cid, step.flags, step.len, step.body, step.stack, step.answer,
                            step.callbackDisconnects);
    } else if step.PeerResponds? {
      added := AddsOnResponse(ViewOf(c), step.id, step.response);
      Dispatch(c, step.id, step.response);
    } else {
      added := PerformSimple(c, step);
    }
  }

  /** On every run, for every behaviour of the peer, of the other channels and of the ACL
      layer: the channel is OPEN exactly when it is up, the peer has accepted our last
      request and nothing of ours is outstanding, and we have answered the peer positively,
      all since the last connection or reconfiguration; and each of the other five
      configuration states means exactly its own combination of these facts. The log is what the steps added, one
      after the other, and each step knew the state that the log before it means. */
  method Run(backend: nat -> Answer, credits: nat, steps: seq<Step>)
    returns (c: Channel, done: nat, ghost views: seq<View>, ghost parts: seq<seq<Event>>)
    ensures c.Valid() && done <= |steps|
    ensures done < |steps| ==> Stuck(ViewOf(c), steps[done])
    ensures c.state == OPEN <==>
      Since(c.log, IsConnected, IsDown) && Since(c.log, IsFinalPositive, ResetsOurs) &&
      !Since(c.log, IsRequest, ResetsPending) && Since(c.log, IsFinishedPositive, ResetsTheirs)
    ensures c.state == OPEN && !Since(c.log, IsMisread, ResetsTheirs) ==> Since(c.log, IsCompletePositive, ResetsTheirs)
    ensures forall k :: 0 <= k < |c.log| && IsDown(c.log[k]) && c.state == OPEN ==>
      exists j :: k < j < |c.log| && c.log[j].Connected?
    ensures |views| == |parts| == done && c.log == Flatten(parts)
    ensures forall i :: 0 <= i < done ==> StepAt(views, steps, parts, i)
  {
    hide FactsOf, Means, Since, Stuck, IsDown, Adds, Flatten, StepAt;
    c := new Channel(backend, credits);
    done, views, parts := 0, [], [];
    FlattenNothing();
    while done < |steps|
      invariant c.Valid() && fresh(c) && c.backend == backend && done <= |steps|
      invariant |views| == |parts| == done && c.log == Flatten(parts)
      invariant forall i :: 0 <= i < done ==> StepAt(views, steps, parts, i)
    {
      ghost var v := ViewOf(c);
      var returned;
      ghost var added;
      returned, added := Perform(c, steps[done]);
      if !returned {
        break;
      }
      OneMoreStep(views, steps, parts, v, added);
      views, parts, done := views + [v], parts + [added], done + 1;
    }
    OpenFacts(c.state, c.log);
  }

  /** Step i adds its part, knowing the state that the parts before it mean. */
  ghost predicate StepAt(views: seq<View>, steps: seq<Step>, parts: seq<seq<Event>>, i: nat)
    requires i < |views| && i < |steps| && i < |parts|
  {
    Means(views[i].state, FactsOf(Flatten(parts[..i]))) && Adds(views[i], steps[i], parts[i])
  }

  lemma FlattenNothing()
    ensures Flatten<Event>([]) == []
  {
  }

  lemma OneMoreStep(views: seq<View>, steps: seq<Step>, parts: seq<seq<Event>>, v: View, added: seq<Event>)
    requires |views| == |parts| < |steps|
    requires forall i :: 0 <= i < |views| ==> StepAt(views, steps, parts, i)
    requires Means(v.state, FactsOf(Flatten(parts))) && Adds(v, steps[|views|], added)
    ensures Flatten(parts + [added]) == Flatten(parts) + added
    ensures forall i :: 0 <= i < |views| + 1 ==> StepAt(views + [v], steps, parts + [added], i)
  {
    FlattenSnoc(parts, added);
    hide Means, FactsOf, Adds, Flatten;
    forall i | 0 <= i < |views| + 1
      ensures StepAt(views + [v], steps, parts + [added], i)
    {
      assert (parts + [added])[..i] == parts[..i];
      if i < |views| {
        assert StepAt(views, steps, parts, i);
      } else {
        assert parts[..i] == parts;
      }
    }
  }

  lemma OpenFacts(s: State, log: seq<Event>)
    requires Means(s, FactsOf(log))
    ensures s == OPEN <==>
      Since(log, IsConnected, IsDown) && Since(log, IsFinalPositive, ResetsOurs) &&
      !Since(log, IsRequest, ResetsPending) && Since(log, IsFinishedPositive, ResetsTheirs)
    ensures s == OPEN && !Since(log, IsMisread, ResetsTheirs) ==> Since(log, IsCompletePositive, ResetsTheirs)
    ensures forall k :: 0 <= k < |log| && IsDown(log[k]) && s == OPEN ==> exists j :: k < j < |log| && log[j].Connected?
  {
    hide Since;
    if s == OPEN {
      if !Since(log, IsMisread, ResetsTheirs) {
        FinishedIsComplete(log);
      }
      forall k | 0 <= k < |log| && IsDown(log[k])
        ensures exists j :: k < j < |log| && log[j].Connected?
      {
        UpNeedsConnection(log, k);
      }
    }
  }

  predicate NoResponses(log: seq<Event>) {
    forall i :: 0 <= i < |log| ==> !log[i].RspSent?
  }

  lemma RequestsAreNoResponses(log: seq<Event>, sent: seq<Event>, e: Event, p: Params, limit: nat, reconfigure: bool)
    requires NoResponses(log) && AreRequests(sent, p, limit, reconfigure) && !e.RspSent?
    ensures NoResponses(log + sent + [e])
  {
    hide BlockOfTurn, AfterTurns;
  }

  /** An ACL layer that sends every message as one packet while it has credits. */
  const ONE_EACH: nat -> Answer := n => Answer(1, 1)

  /** A channel that has accepted a connection and whose request the peer has accepted. The request took the only
      credit. */
  method RequestAccepted() returns (c: Channel)
    ensures fresh(c) && c.Valid() && c.state == WAIT_CONFIG_REQ && c.localCid == 0x40 && c.configureReq.None?
    ensures c.NextRc() == 0 && NoResponses(c.log)
  {
    hide FactsOf, Means, AreRequests, IsQueued, AfterTurns, DataOf, MtuOf, AllFit, Receives, Stored, Awaiting, NextId,
      IdAfter, Told;
    c := new Channel(ONE_EACH, 1);
    c.AcceptConnection(0x40, 0x50);
    ghost var before := c.log;
    var _, sent := c.Configure(CLEARED);
    var _, _ := c.HandleConfigRsp(true, 0, RES_OK, 6, [], false);
    FinalOnly();
    RequestsAreNoResponses(before, sent, RspReceived(RES_OK, 0), CLEARED, MTU_MIN, false);
  }

  lemma FinalOnly()
    ensures forall oneMoreExpected, rc :: Receives(RES_OK, 0, oneMoreExpected, false, rc) == [RspReceived(RES_OK, 0)]
  {
  }

  /** The answer of a client that wants a quality of service and an MTU of 20. */
  const LARGE_ANSWER := Params({MTU, QOS}, 20, 0, 0, 0, Some(Qos(0, 0, 0, 0, 0, 0, 0)), None, None)

  const EMPTY_STACK := Stack([0, 0], seq(32, _ => 0))

  /** The misread return value at work. The client answers the peer's request with a quality
      of service that does not fit the peer's MTU of 20 beside the MTU option; the first part
      is queued (the send returns 0), and the channel is OPEN although the response says that
      more is to follow and nothing more will. */
  method OpensOnHalfAResponse() returns (c: Channel)
    ensures fresh(c) && c.Valid() && c.state == OPEN
    ensures !Since(c.log, IsCompletePositive, ResetsTheirs)
  {
    c := RequestAccepted();
    hide FactsOf, Means, Since, NoResponses;
    AnswerByHalf(c);
  }

  method AnswerByHalf(c: Channel)
    requires c.Valid() && c.state == WAIT_CONFIG_REQ && c.localCid == 0x40 && c.configureReq.None?
    requires c.NextRc() == 0 && NoResponses(c.log)
    modifies c
    ensures c.Valid() && c.state == OPEN && !Since(c.log, IsCompletePositive, ResetsTheirs)
  {
    hide *;
    ghost var before, mtu := c.log, c.remoteMtu;
    NothingToParse(EMPTY_STACK);
    c.HandleConfigureReq(0x40, 0, 4, [], EMPTY_STACK, Some(ConfReply({}, LARGE_ANSWER)), false);
    HalfAnswered(c, before, mtu);
  }

  /** What such an answer leaves behind. */
  lemma HalfAnswered(c: Channel, before: seq<Event>, mtu: nat)
    requires NoResponses(before) && c.MovesOn(WAIT_CONFIG_REQ, before, false)
    requires c.Taken(DataOf(None), 0, Parse([], 0, DataOf(None).params, true), SecondPass([], 0, EMPTY_STACK),
                     Some(ConfReply({}, LARGE_ANSWER)), false, WAIT_CONFIG_REQ, before, mtu, 0)
    ensures c.state == OPEN && !Since(c.log, IsCompletePositive, ResetsTheirs)
  {
    hide NextStart, BlockAt, Parse, SecondPass, Since, NoResponses, AfterFinishedPositive, IsFinishedPositive;
    AnswerAsItIs(LARGE_ANSWER);
    NothingToParse(EMPTY_STACK);
    TooLargeTogether(LARGE_ANSWER);
    HalfIsNotComplete(before, c.log);
  }

  lemma AnswerAsItIs(answer: Params)
    requires answer.mask == {MTU, QOS}
    ensures MtuOf(answer) == answer.mtu && answer.(mtu := MtuOf(answer), mask := answer.mask + {MTU}) == answer
    ensures answer.retxFlow.None? && answer.extFlow.None? ==> SetReply(CLEARED, answer) == answer
  {
    assert answer.mask + {MTU} == answer.mask;
  }

  /** A response that says more is to follow counts as finished when it was queued, but is not complete. */
  lemma HalfIsNotComplete(before: seq<Event>, log: seq<Event>)
    requires NoResponses(before) && before <= log && |log| == |before| + 1
    requires log[|before|].RspSent? && log[|before|].more && log[|before|].rc == 0 && log[|before|].result == RES_OK
    ensures IsFinishedPositive(log[|log| - 1]) && AfterFinishedPositive(WAIT_CONFIG_REQ) == OPEN
    ensures !Since(log, IsCompletePositive, ResetsTheirs)
  {
    forall k | 0 <= k < |log|
      ensures !IsCompletePositive(log[k])
    {
      assert k < |before| ==> log[k] == before[k];
    }
  }

  /** A peer's request for an MTU of 20, which holds the MTU option and no quality of service. */
  const SMALL_MTU := Params({MTU}, 20, 0, 0, 0, None, None, None)

  /** A channel whose peer has asked for an MTU of 20 and was answered. */
  method SmallMtuAgreed(credits: nat) returns (c: Channel)
    ensures fresh(c) && c.Valid() && c.state == WAIT_SEND_CONFIG && c.remoteMtu == 20 && c.expectedCount == 0
  {
    var body := Encode(SMALL_MTU, 1, 2);
    hide *;
    c := new Channel(ONE_EACH, credits);
    c.AcceptConnection(0x40, 0x50);
    SmallMtuCanBeTaken(body, EMPTY_STACK);
    ghost var before, mtu, rc := c.log, c.remoteMtu, c.NextRc();
    c.HandleConfigureReq(0x40, 0, 4 + |body|, body, EMPTY_STACK, None, false);
    SmallMtuTaken(c, body, EMPTY_STACK, before, mtu, rc);
  }

  lemma SmallMtuCanBeTaken(body: seq<byte>, stack: Stack)
    requires body == Encode(SMALL_MTU, 1, 2)
    ensures TakesRequests(WAIT_CONFIG) && !PendingIn(None)
    ensures Parse(body, |body|, DataOf(None).params, true) == Outcome(Parsed, SMALL_MTU, 0)
    ensures CanReply(body, |body|, DataOf(None).params, stack)
  {
    hide SecondPass, ParseFrom, Encode;
    ParseEncoded(SMALL_MTU, 1, 2, [], CLEARED, true);
    assert body + [] == body;
    assert TakeAll(CLEARED, SMALL_MTU, 1, 2) == SMALL_MTU;
  }

  /** The request for an MTU of 20 is applied and answered in one message. */
  lemma SmallMtuTaken(c: Channel, body: seq<byte>, stack: Stack, before: seq<Event>, mtu: nat, rc: int)
    requires body == Encode(SMALL_MTU, 1, 2)
    requires c.Taken(DataOf(None), 0, Parse(body, |body|, DataOf(None).params, true), SecondPass(body, |body|, stack),
                     None, false, WAIT_CONFIG, before, mtu, rc)
    requires c.MovesOn(WAIT_CONFIG, before, false)
    ensures c.remoteMtu == 20 && c.state == WAIT_SEND_CONFIG
  {
    hide SecondPass, Parse, Encode, NextStart, BlockAt, Encode;
    SmallMtuCanBeTaken(body, stack);
    assert {MTU} + {MTU} == {MTU};
    assert NextStart(SMALL_MTU, 0, 20) == 0 by {
      SmallMtuFits();
    }
  }

  lemma SmallMtuFits()
    ensures NextStart(SMALL_MTU, 0, 20) == 0
  {
    assert StopFrom(SMALL_MTU, 5, 4, 20) == END_OF_OPTIONS;
    assert StopFrom(SMALL_MTU, 3, 4, 20) == END_OF_OPTIONS;
  }

  lemma QosIsOversize(p: Params)
    requires p.qos.Some?
    ensures !AllFit(p, 20) && MayConfigure(WAIT_SEND_CONFIG) && AfterRequest(WAIT_SEND_CONFIG) == WAIT_CONFIG_RSP
  {
    assert Present(p, QOS) && 2 + PayloadLen(QOS) > 20;
  }

  lemma AllContinued(sent: seq<Event>, p: Params, rc: int, reconfigure: bool)
    requires StartsWith(sent, rc) && AreRequests(sent, p, 20, reconfigure) && !AllFit(p, 20)
    ensures sent != []
    ensures forall i :: 0 <= i < |sent| ==> Continued(sent[i]) && (i >= 6 ==> sent[i].options == [])
  {
    hide AllFit, AfterTurns, BlockOfTurn;
    OversizeIsNeverWhole(sent, p, 20, reconfigure);
  }

  /** An option that fits no message, on any number of credits: the peer's MTU is 20, and the client asks for a
      quality of service. The request uses up all the credits there are on messages that all announce more and from
      the seventh on carry nothing, and then it is reported as failed, while the channel already waits for the
      response. */
  method OversizeUsesAllCredits(credits: nat, p: Params)
    returns (c: Channel, ok: bool, ghost before: seq<Event>, ghost sent: seq<Event>)
    requires p.qos.Some?
    ensures fresh(c) && c.Valid() && c.state == WAIT_CONFIG_RSP && c.remoteMtu == 20
    ensures !ok && c.credits == 0 && c.log == before + sent && sent != []
    ensures forall i :: 0 <= i < |sent| ==> Continued(sent[i]) && (i >= 6 ==> sent[i].options == [])
  {
    hide *;
    c := SmallMtuAgreed(credits);
    before := c.log;
    ghost var rc := c.NextRc();
    QosIsOversize(p);
    ok, sent := c.Configure(p);
    AllContinued(sent, p, rc, false);
  }

  /** The loss of the ACL link changes no state: the channel is OPEN on no link. */
  method StaysOpenWithoutLink() returns (c: Channel)
    ensures c.Valid() && c.state == OPEN && c.log != [] && c.log[|c.log| - 1] == LinkLost
  {
    c := OpensOnHalfAResponse();
    c.LinkGone();
  }

  lemma NothingToParse(stack: Stack)
    ensures Parse([], 0, CLEARED, true) == Outcome(Parsed, CLEARED, 0) && DataOf(None) == NO_DATA &&
      NO_DATA.params == CLEARED
    ensures TakesRequests(WAIT_CONFIG_REQ) && !PendingIn(None) && CanReply([], 0, DataOf(None).params, stack)
  {
  }

  lemma TooLargeTogether(p: Params)
    requires p.mask == {MTU, QOS} && p.mtu == 20 && p.qos.Some? && p.retxFlow.None? && p.extFlow.None?
    ensures NextStart(p, 0, 20) == QOS
  {
    assert !Present(p, FLUSH_TIMEOUT);
    assert StopFrom(p, 3, 4, 20) == 3;
    assert StopFrom(p, 2, 4, 20) == 3;
  }
}
