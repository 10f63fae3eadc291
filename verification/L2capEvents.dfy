/** What has happened on a channel, as a log of events, and the facts about the negotiation
    that the log alone determines. The channel's state variable plays no part here. */
module L2capEvents {
  import opened Bytes
  import opened Temporal

  const RES_OK: nat := 0
  const RES_ERR_PARAMS: nat := 1
  const RES_ERR_REJ: nat := 2
  const RES_ERR_UNKNOWN: nat := 3

  /** `rc` is what the ACL layer answered to the send: negative on error, 0 if the message
      was only queued, positive if packets left. A reply to unknown options says in its headers how many
      bytes it counted, whatever it holds. The loss of the link below the channel is no change of the channel. */
  datatype Event =
    | ConnReqSent
    | Connected
    | ReqSent(options: seq<byte>, more: bool, rc: int, reconfigure: bool)
    | RspReceived(result: nat, flags: nat)
    | RspSent(options: seq<byte>, more: bool, result: nat, rc: int)
    | AckSent
    | UnknownRspSent(counted: nat, options: seq<byte>)
    | DisconnReqSent
    | Disconnected
    | LinkLost

  predicate IsConnected(e: Event) { e.Connected? }

  /** The channel is no longer connected, or about to be taken down. */
  predicate IsDown(e: Event) { e.ConnReqSent? || e.DisconnReqSent? || e.Disconnected? }

  predicate IsRequest(e: Event) { e.ReqSent? }

  /** The handler takes a response as the last one when all its flags are 0. */
  predicate IsFinalResponse(e: Event) { e.RspReceived? && e.flags == 0 }

  predicate IsFinalPositive(e: Event) { IsFinalResponse(e) && e.result == RES_OK }

  /** A positive response that the sender regards as finished: nothing is left to send, or
      the message was queued and the return value 0 was taken for a failure. */
  predicate IsFinishedPositive(e: Event) {
    e.RspSent? && e.result == RES_OK && (!e.more || e.rc == 0)
  }

  /** A positive response that really is complete and was accepted by the ACL layer. */
  predicate IsCompletePositive(e: Event) {
    e.RspSent? && e.result == RES_OK && !e.more && e.rc >= 0
  }

  /** The sends whose return value is misread (l2cap.c:675-676). */
  predicate IsMisread(e: Event) {
    e.RspSent? && e.result == RES_OK && (if e.more then e.rc == 0 else e.rc < 0)
  }

  predicate NewEpoch(e: Event) { IsConnected(e) || IsDown(e) }

  predicate ResetsOurs(e: Event) { NewEpoch(e) || IsRequest(e) }

  predicate ResetsPending(e: Event) { NewEpoch(e) || IsFinalResponse(e) }

  predicate ResetsTheirs(e: Event) { NewEpoch(e) || (e.ReqSent? && e.reconfigure) }

  /** up: connected. ours: the peer has accepted our request. pending: a request of ours is
      not answered yet. theirs: we have accepted the peer's request. All of them since the
      last connection or reconfiguration. */
  datatype Facts = Facts(up: bool, ours: bool, pending: bool, theirs: bool)

  ghost function FactsOf(log: seq<Event>): Facts {
    Facts(Since(log, IsConnected, IsDown),
          Since(log, IsFinalPositive, ResetsOurs),
          Since(log, IsRequest, ResetsPending),
          Since(log, IsFinishedPositive, ResetsTheirs))
  }

  function Update(f: Facts, e: Event): Facts {
    Facts(IsConnected(e) || (!IsDown(e) && f.up),
          IsFinalPositive(e) || (!ResetsOurs(e) && f.ours),
          IsRequest(e) || (!ResetsPending(e) && f.pending),
          IsFinishedPositive(e) || (!ResetsTheirs(e) && f.theirs))
  }

  lemma FactsSnoc(log: seq<Event>, e: Event)
    ensures FactsOf(log + [e]) == Update(FactsOf(log), e)
  {
    SinceSnoc(log, e, IsConnected, IsDown);
    SinceSnoc(log, e, IsFinalPositive, ResetsOurs);
    SinceSnoc(log, e, IsRequest, ResetsPending);
    SinceSnoc(log, e, IsFinishedPositive, ResetsTheirs);
  }

  lemma FactsAtStart()
    ensures FactsOf([]) == Facts(false, false, false, false)
  {
  }

  /** A finished response is a complete one unless its send was misread. */
  lemma {:induction false} FinishedIsComplete(log: seq<Event>)
    requires Since(log, IsFinishedPositive, ResetsTheirs) && !Since(log, IsMisread, ResetsTheirs)
    ensures Since(log, IsCompletePositive, ResetsTheirs)
  {
    var k :| 0 <= k < |log| && SinceAt(log, IsFinishedPositive, ResetsTheirs, k);
    assert !SinceAt(log, IsMisread, ResetsTheirs, k);
    assert SinceAt(log, IsCompletePositive, ResetsTheirs, k);
  }

  /** After a disconnection the channel is up again only if a new connection was made. */
  lemma {:induction false} UpNeedsConnection(log: seq<Event>, k: nat)
    requires k < |log| && IsDown(log[k]) && Since(log, IsConnected, IsDown)
    ensures exists j :: k < j < |log| && log[j].Connected?
  {
    var j :| 0 <= j < |log| && SinceAt(log, IsConnected, IsDown, j);
    assert log[j].Connected?;
  }
}
