# bt-embedded: models and proofs

bt-embedded is a host stack for Bluetooth Classic. These Dafny modules model its five
stateful parts and prove what holds on every input, run or reachable state:

- **L2CAP configuration** (`L2capOptions`, `L2capConfig`, `L2capParse`, `L2capRoundTrip`,
  `L2capUnknown`, `L2capEvents`, `AclCredits`, `L2capChannel`, `L2capRuns`, `L2capReplies`): the ten-state channel as a
  class with a log of what happened. The log alone determines four facts about the negotiation (`FactsOf`);
  the table `Means` says which facts each state stands for; every handler keeps it. Options are
  written and parsed by loops over buffers and streams, against a recursive encoding. `L2capReplies` says what a
  negotiation in several messages comes to, in terms of the bytes on the wire.
- **SDP data elements** (`SdpElement`, `SdpTree`, `SdpArgs`, `SdpWriter`, `SdpReader`, `SdpWalk`, `SdpLoop`):
  elements as trees; the writer on an argument list and a byte array; the reader cursor, whose `leave`
  finds the parent by scanning from the root, and the loops clients write with it. `SdpClient` models requests
  and replies in parts, `SdpSearch` the search for a few UUIDs.
- **Packet chains** (`Buffer`, `AclFrames`, `Acl`, `AclReceiver`): linked packets with reserved headers as one
  flat stream; cutting messages into ACL packets; reassembly of any packet stream, alone and mixed with
  the packets of other connections, and what it does to reference counts.
- **The outgoing queue** (`PacketRefs`, `QueueHistory`, `HciQueue`, `HciRuns`): reference counts over linked
  packets, credit flow control, and the purge of a connection; `AclRuns` runs it together with any number of
  receiving connections over the same memory. Memory is a map from addresses to
  packets, and freeing removes an entry, so every access that verifies is an access to a live packet.
- **Pending commands** (`DataMatcher`, `PendingCommands`, `PendingRuns`): the packed byte matcher and the eight slots
  that lead each event back to the client that caused it.

`Prelude`, `Bytes`, `ByteArrays` and `Temporal` hold what the others share. `dafny verify dfyconfig.toml` checks
everything.

Callbacks into clients are entries of a ghost log. What the backend answers, and what the ACL layer answers while it
has credits, are arbitrary functions of the number of the send; `HciQueue.Device.SendMessage` and `AclCredits.EverySend`
tie the second to the first. A NULL output buffer is a flag or a size of 0, and what uninitialised local variables hold
is a parameter. 16-bit and 8-bit counters wrap where the code lets them; where they are proved not to wrap, the contract
says so.

## What the proofs found

Where the code does not do what its documentation or the protocol promises, the model follows the code. Beside the
exact condition under which the promise holds stands a run or an input at which it does not, or a lemma about all of
them:

- `de_write` leaves a buffer of exactly the size it asked for unwritten (`SdpWriter.ExactSizeIsNotEnough`); it
  writes exactly if the buffer is larger (`SdpWriter.Write`).
- An array of strings or URLs that comes last is followed by a terminator that the size does not count
  (`SdpWriter.TerminatorBehindText`; exactly then, `SdpArgs.WrittenWithoutNilArrays`).
- Arrays of NIL take more bytes than are counted (`SdpWriter.NilArrayOverruns`; exactly these,
  `SdpArgs.SizeIsExactWithoutNilArrays`).
- Arrays of bools other than 0 and 1, of UUID128 and of NIL are not written like their elements
  (`SdpArgs.SomeChunksDisagree`; exactly these, `SdpArgs.ChunkWrittenAsElement`).
- `leave` does not restore `next_called`, so an empty sequence is visited twice
  (`SdpWalk.EmptyChildIsVisitedAgain`); a loop over children ends exactly if every walk leaves the flag set
  (`SdpLoop.EachChildOnceIff`).
- A send that returns 0 is taken for a failure, so a channel can open on half a response
  (`L2capRuns.OpensOnHalfAResponse`; not without a misread send, `L2capEvents.FinishedIsComplete`). And 0 is what
  sending returns while anything waits (`HciQueue.Device.SendMessage`).
- A request that takes n messages waits for n responses, but takes only the one with the last id. When the peer has
  agreed, n - 1 stay outstanding, and the next request is refused (`L2capReplies.ConfigureTwice`; exactly unless n
  is 1).
- When the peer's response announces more, the rest is asked for only if one other response is outstanding, against the
  comment in l2cap.c:811-812: after a request of n messages exactly if n is 2. With one message the channel waits for
  ever (`L2capReplies.MoreIsAnnounced`).
- The loss of the link leaves a channel OPEN (`L2capRuns.StaysOpenWithoutLink`): no state depends on it.
- A request with an option that fits no message, as the peer's MTU is not bounded from below, uses up all credits on
  empty continued messages and then reports a failure while the state already waits for a response
  (`L2capRuns.OversizeUsesAllCredits`). Were it not for the credits the loop would go on for ever, exactly then
  (`L2capChannel.RequestEndsIff`); it ends as every send but the last costs one (`L2capChannel.CreditsEndRequest`).
- The reply to unknown options can be too long or never end (`L2capUnknown.SlipExamples`); a payload is repeated
  exactly for sizes up to 32 or multiples of 32 (`L2capUnknown.CopyExactIff`), and from 225 bytes on the loop does not
  end (`L2capUnknown.CopyEndsIff`, `L2capRuns.NeverReturns`).
- A hinted structured option loses its value (`L2capRoundTrip.HintedStructuredOptionIsDropped`), and exactly such
  options do (`L2capParse.KnownInOrder`).
- A message of 0xffff bytes in several packets is mistaken for a refused one, and longer ones wrap
  (`AclFrames.OversizeDoesNotArrive`, for every such message; exactly these, `AclFrames.ArrivesExactlyWhenItFits`).
- The scan for equal commands stops at the first free slot, so a reply can reach the wrong client
  (`PendingCommands.EqualGetsInThroughGap`; only with a gap, `PendingCommands.EqualsRefusedExactlyWithoutGap`).
- A command whose second phase starts while all slots are occupied loses its final event
  (`PendingCommands.SecondPhaseIsLost`; `PendingCommands.Table.DeliverStatus` says exactly when).
- A search for ten to twelve UUIDs sends what happens to be on the stack (`SdpSearch.SearchPattern`; up to nine it
  does not, `SdpSearch.AskedIffNine`).
- A connection that ends in the middle of a message keeps its packets for ever (`AclRuns.HalfReceivedIsLost`).
- A failed send consumes its credit for good (`HciRuns.FailedSendStarves`): with nothing in flight, the credits are
  complete exactly if no send has failed (`HciRuns.Run`, where `failed` is part of the sum).

## Model
| member | source | states |
|---|---|---|
| L2capRuns.Run | bt-embedded/l2cap.c:1222-1281 | For every sequence of local calls, peer messages and changes of the credits, every stack content and every answer of the ACL layer: the channel is OPEN exactly when, since the last connection or reconfiguration, it is up, the peer finally accepted our last request, nothing of ours is outstanding and we answered the peer positively; unless a send result was misread, that answer was complete; and an OPEN channel that was ever down has been connected again since. The log is what the steps added one after the other, and each step knew the state that the log before it means. A run stops only in front of a step that never returns |
| L2capRuns.Perform | bt-embedded/l2cap.c:1196-1252 | Every step keeps the state meaning what the log says, and adds to the log exactly what the step and the channel before it imply: which connection events, which messages with which options and send results, which answer; it returns if and only if it enters no walk over unknown options that does not end |
| L2capRuns.NeverReturns | bt-embedded/l2cap.c:858-887 | Wherever requests are taken and no response is pending, a request from the peer with one unknown option of 225 bytes never returns |
| L2capRuns.OversizeUsesAllCredits | bt-embedded/l2cap.c:648-707 | For any number of credits: a quality of service for a peer with an MTU of 20 uses up every credit on messages that all announce more and from the seventh on carry nothing; then the call reports a failure while the channel already waits for the response |
| AclCredits.SomeSendReturnsZero | bt-embedded/hci_dev.c:184-213 | Among more messages than there are credits, with no completion between them, one is answered with 0 |
| AclCredits.ThenAllReturnZero | bt-embedded/hci_dev.c:184-213 | From then on every message is answered with 0 until credits come back |
| AclCredits.EverySend | bt-embedded/acl.c:360-384 | The answers that a channel is run with stand for every send the ACL layer can make, and for nothing else |
| L2capRuns.Dispatch | bt-embedded/l2cap.c:1253-1281 | A response with another id or code, or with none expected, changes nothing at all; one that matches is handled, and the count of outstanding responses goes down by one exactly if the handler takes it |
| L2capRuns.HandleResponse | bt-embedded/l2cap.c:1222-1251 | What each kind of response does to state, log, channel ids, MTU and collected parameters, in which states it is taken, and which response is awaited if taking it sends another request |
| L2capRuns.OpensOnHalfAResponse | bt-embedded/l2cap.c:675-718 | A concrete run that reaches OPEN although the positive response was sent only in part: a send result of 0 is taken for a failure after which nothing more is sent |
| L2capRuns.StaysOpenWithoutLink | bt-embedded/l2cap.c:1337-1370 | The loss of the ACL link changes no state: a run that ends OPEN with the link gone |
| L2capEvents.FactsSnoc | bt-embedded/l2cap.c:62-70 | How each event changes the four facts about the negotiation, which are defined on the log alone |
| L2capEvents.FinishedIsComplete | bt-embedded/l2cap.c:675-718 | A response regarded as finished was complete and accepted, unless one of the misread sends stands in the log |
| L2capEvents.UpNeedsConnection | bt-embedded/l2cap.c:193-208 | After a disconnection the channel is up only if a later connection is in the log |
| L2capChannel.MeansAfterRequest | bt-embedded/l2cap.c:700-707 | Sending a request moves each state to the one that means the facts after it, a reconfiguration included |
| L2capChannel.MeansAfterResponse | bt-embedded/l2cap.c:709-718 | A finished positive response moves each state to the one that means the facts after it; no other response moves it |
| L2capChannel.Channel.ConnectionRequest | bt-embedded/l2cap.c:193-208 | Nothing happens beyond WAIT_CONNECT; otherwise the response with the id just drawn is expected, and the state and the log advance exactly when the send succeeded |
| L2capChannel.Channel.AcceptConnection | bt-embedded/l2cap.c:893-921 | An incoming connection starts in WAIT_CONFIG with both channel ids |
| L2capChannel.Channel.HandleConnRsp | bt-embedded/l2cap.c:264-309 | WAIT_CONFIG is entered exactly on a complete successful reply, a pending one leaves the state, a refusal closes; the reply counts exactly if it is a refusal or names our channel |
| L2capChannel.Channel.Disconnect | bt-embedded/l2cap.c:1670-1682 | A channel that is connected expects a response with the id just drawn and waits for the disconnection exactly if the request could be sent; any other is closed at once; the log gets just that event |
| L2capChannel.Channel.HandleDisconnRsp | bt-embedded/l2cap.c:1135-1157 | The channel closes exactly on a complete reply with both channel ids right |
| L2capChannel.Channel.HandleDisconnReq | bt-embedded/l2cap.c:1168-1194 | The channel closes exactly when the request names it |
| L2capChannel.Channel.SendRequest | bt-embedded/l2cap.c:625-721 | For every parameter set and every MTU: one message and one send for each turn, all but the last marked as continued, one more than there are credits at most; either the last turn sent the last option, and then every option fits, or its send returned 0 and no credit is left; the state keeps its meaning and moves on in both cases |
| L2capChannel.Channel.SendRequestMessages | bt-embedded/l2cap.c:648-700 | The loop itself: it always ends, as every turn but the last uses up a credit, and what it does to the facts about the negotiation |
| L2capChannel.RequestEndsIff | bt-embedded/l2cap.c:648-700 | The loop by itself, whatever its sends return: it ends if and only if every present option fits the remote MTU or some later send returns 0 |
| L2capChannel.CreditsEndRequest | bt-embedded/hci_dev.c:184-213 | On the ACL layer some later send does: the loop ends for every parameter set and MTU with one message more than there are credits at the latest |
| L2capChannel.OversizeIsNeverWhole | bt-embedded/l2cap.c:648-700 | If some option fits no message, every message of the request announces more, and from the seventh on none carries an option |
| L2capChannel.FinishedIsWhole | bt-embedded/l2cap.c:648-700 | A request that was sent to its end carries exactly the blocks of the unsplit encoding; that every option fits follows |
| L2capChannel.Channel.SendResponse | bt-embedded/l2cap.c:625-721 | A response is one message with as many options as fit; what is left is remembered exactly when there is more and the send was not taken for a failure |
| L2capChannel.Channel.Configure | bt-embedded/l2cap.c:1592-1626 | A request is made only in the three states that allow it and with no other request outstanding; otherwise nothing changes. Success means that every option fitted and went out; failure that a message was only queued and no credit is left. One response more is expected for each message that was not just queued, all with the last id |
| L2capChannel.Channel.HandleConfigRsp | bt-embedded/l2cap.c:735-818 | A continued response is collected, leaves state and MTU and is followed by one empty request exactly if one other response is still expected; a final one moves the state by its result, unless the client disconnects in its callback, sets the local MTU if it is positive, tells the client all that was collected and forgets it |
| L2capChannel.Channel.StoreResponse | bt-embedded/l2cap.c:744-773 | What a response carries is added to what is collected; what that amounts to over all parts is stated in L2capReplies.TakeResponse |
| L2capChannel.Channel.FinishResponse | bt-embedded/l2cap.c:775-809 | The local MTU is taken from the collected parameters of a positive response; the state moves by the result, and only if the client left it alone in its callback |
| L2capChannel.Channel.HandleConfigureReq | bt-embedded/l2cap.c:923-1038 | A request for another channel or in another state changes nothing; otherwise unknown options are answered with the bytes of the second walk and the size of the first, a corrupt request is ignored, a continued one is acknowledged and kept, the last one is answered and the rest of the answer kept exactly if there is more and its send did not return 0. The state moves on exactly with an answer that finishes a positive response |
| L2capChannel.Channel.SendPending | bt-embedded/l2cap.c:975-982 | A further request while part of a response is unsent makes the channel send the next part, and what is left after that stays pending unless the send returned 0 |
| L2capChannel.Channel.AnswerRequest | bt-embedded/l2cap.c:999-1018 | The peer's MTU is applied unless the client rejects; the answer carries the agreed parameters with the MTU among them |
| L2capReplies.TakeResponse | bt-embedded/l2cap.c:735-818 | For a response in any number of parts, each with any result and any options: the client is told as rejected the options named in all parts that propose other values, as unknown those of the last part that says so, as parameters those agreed or proposed; after each part the record holds just that of the parts so far. A positive end leaves the MTU of the last MTU option, or 672; any other leaves the MTU alone |
| L2capReplies.TakeBlocks | bt-embedded/l2cap.c:735-818 | The blocks of any parameters for any MTU each option fits, as continued positive responses and a final one: after every part the record encodes to exactly the bytes received, the client is told exactly the parameters, and the local MTU is the one among them, or 672 |
| L2capReplies.PartSays | bt-embedded/l2cap.c:744-773 | What one part adds to each mask and to the MTU, by its result, for every list of options |
| L2capReplies.TakeRequest | bt-embedded/l2cap.c:923-1038 | A request in blocks of any size, followed by empty requests while more is announced: the continued parts are acknowledged, and the messages of the answer carry the options of the answer in order and once each: the MTU in force, what the client set, and the structured options of the request that it did not set. The last message is finished, or the first whose send returned 0, which cuts the options short; nothing stays pending then, and the state has moved on exactly if that was a positive response |
| L2capReplies.OwnFits | bt-embedded/l2cap.c:648-700 | Every option of the answer fits if and only if every option of the record it is sent from does |
| L2capReplies.OversizeAnswer | bt-embedded/l2cap.c:625-721 | An answer with an option that does not fit is never finished, however often the peer asks for more |
| L2capReplies.Connect | bt-embedded/l2cap.c:193-208 | A connection request and the positive response with its id: the channel has the peer's channel id and waits for configuration, and no more is outstanding than before |
| L2capReplies.RequestSent | bt-embedded/l2cap.c:674-682 | A request that goes out whole in n messages leaves n responses expected, all with the last id: the acknowledgements of the others change nothing |
| L2capReplies.ConfigureTwice | bt-embedded/l2cap.c:1267-1276 | So when the peer agrees to a request of n messages, n - 1 responses stay outstanding, and the next request is made if and only if n is 1 |
| L2capReplies.MoreIsAnnounced | bt-embedded/l2cap.c:810-815 | When the peer announces more in its response to a request of n messages, the channel asks for the rest if and only if n is 2; with n = 1 nothing is expected any more and the channel goes on waiting, whatever response comes |
| L2capConfig.ConfigWrite | bt-embedded/l2cap.c:472-623 | The sizing call and the writing call agree on size and stopping point, stay within the limit, and the bytes written are the block of options that starts there |
| L2capConfig.WriteFrom | bt-embedded/l2cap.c:499-620 | The cascade of options writes exactly the present options up to the first one that does not fit |
| L2capOptions.BlockIsGreedy | bt-embedded/l2cap.c:472-623 | A block fits the limit, and the option it stops at would not have fitted any more |
| L2capOptions.BlocksConcatenate | bt-embedded/l2cap.c:648-700 | The blocks of successive messages put together are the unsplit encoding, each fits the limit, and there are at most seven |
| L2capOptions.LoopEndsIffAllFit | bt-embedded/l2cap.c:648-700 | The start command reaches the end if and only if every present option fits the remote MTU on its own |
| L2capOptions.StandsStill | bt-embedded/l2cap.c:648-700 | If it does not, the start command stands still after seven turns at the latest |
| L2capOptions.BlocksAreTurns | bt-embedded/l2cap.c:648-700 | If every option fits, turn number i of the request loop sends block number i, and the last block ends the loop |
| L2capOptions.LargeMtuFitsAll | bt-embedded/l2cap.c:311-328 | A remote MTU of at least 24 satisfies that for every parameter set |
| L2capParse.ConfigParse | bt-embedded/l2cap.c:347-468 | The parsing loop computes the recursive specification for every byte stream and declared size, corrupted and unknown options included; a plain option is stored before its size is found wrong |
| L2capParse.ReadKnown | bt-embedded/l2cap.c:362-462 | A known option of the right size is stored field by field and its bytes are consumed |
| L2capParse.KnownInOrder | bt-embedded/l2cap.c:422-462 | A known option of the right size that is there as a whole is stored, unless it is a structured one with the hint bit, of which only the mask remains |
| L2capRoundTrip.ParseEncoded | bt-embedded/l2cap.c:347-468 | Parsing an encoded run of options, whatever follows it, takes exactly these options over into the record |
| L2capRoundTrip.SplitRoundTrip | bt-embedded/l2cap.c:347-700 | Any configuration, split by any MTU every option fits, parses block by block back to the original parameters: nothing lost, repeated or reordered |
| L2capRoundTrip.HintedStructuredOptionIsDropped | bt-embedded/l2cap.c:422-462 | With the hint bit set, a structured option is marked as present but its value is dropped |
| L2capRoundTrip.QosFields | bt-embedded/l2cap.c:514-538 | Where the fields of a quality of service stand on the wire |
| L2capRoundTrip.RetxFields | bt-embedded/l2cap.c:540-561 | Where those of a retransmission and flow control option stand |
| L2capRoundTrip.ExtFields | bt-embedded/l2cap.c:579-601 | Where those of an extended flow specification stand |
| L2capRoundTrip.Le32Bytes | bt-embedded/l2cap.c:514-538 | The lowest byte of a 32-bit value comes first |
| L2capUnknown.BadListIsRefused | bt-embedded/l2cap.c:354-371 | A list that goes wrong behind any number of options, with a cut header, a size beyond the command or a size that is not the option's, is refused: the record names no option any more, and the error is one of the type exactly if an unknown option without hint was read |
| L2capUnknown.EveryList | bt-embedded/l2cap.c:354-371 | Every byte string is a list of options, or one that goes wrong behind some of them |
| L2capUnknown.ParseCountsUnknowns | bt-embedded/l2cap.c:347-468 | For every well-formed option list the first parse reports a type error exactly when an unknown option without hint is there, with the size of just these options |
| L2capUnknown.CopyExactIff | bt-embedded/l2cap.c:873-880 | On every stream that holds the payload the bytes the copy loop writes are the payload, with the stream behind it, if and only if the payload has at most 32 bytes or a multiple of 32 |
| L2capUnknown.CopyEndsIff | bt-embedded/l2cap.c:873-880 | The copy loop ends if and only if the payload has at most 224 bytes; above, its 8-bit counter wraps round |
| L2capUnknown.CopyPayload | bt-embedded/l2cap.c:873-880 | For every size for which the loop ends, on any stream, it writes the bytes of its turns, short reads and the stale buffer included |
| L2capUnknown.ReplyTypeError | bt-embedded/l2cap.c:839-891 | On any stream over which the second walk ends it writes the bytes of the specification, whatever the uninitialised memory holds |
| L2capUnknown.ReplyOutcome | bt-embedded/l2cap.c:839-891 | For every list of options: the reply is exactly the unknown options without hint if all are copied exactly; there is none if the first that is not has more than 224 bytes; otherwise it begins with that option and the ones before it and goes on behind it |
| L2capUnknown.ReplyExactIff | bt-embedded/l2cap.c:820-891 | The first pass counts the bytes of the unknown options; the second writes exactly them if all are copied exactly, and does not if the last unknown option is the only one that is not |
| L2capUnknown.SlipGoesUnseen | bt-embedded/l2cap.c:858-887 | Why no more can be said of an earlier one: an unknown option of 33 bytes takes in the next of 29, and with a hinted option that stands in the stream twice the reply is exact all the same |
| L2capUnknown.SlipExamples | bt-embedded/l2cap.c:820-891 | One unknown option of 33 bytes makes 66 bytes where 35 were counted; one of 225 bytes is copied for ever |
| L2capUnknown.NoWrap | bt-embedded/l2cap.c:858-887 | The 16-bit counter of the walk can wrap only in a request of nearly 64 KiB |
| SdpElement.Accessors | bt-embedded/services/sdp.c:117-157 | What the header, data and total size accessors and the type accessor report of a well-formed element, whatever follows it |
| SdpElement.DecodeEncode | bt-embedded/services/sdp.c:117-157 | Every well-formed tree is decoded from its bytes by these accessors, across all three length forms, whatever follows |
| SdpElement.EncodeDecode | bt-embedded/services/sdp.c:117-157 | Whatever decodes is well formed and encodes to exactly the bytes that were read |
| SdpElement.EncodeDecodeAll | bt-embedded/services/sdp.c:117-157 | The same for a whole sequence body |
| SdpElement.HeaderBytes | bt-embedded/services/sdp.c:117-157 | The bytes of a variable-length header in each of its three forms, the highest first |
| SdpElement.SizesDouble | bt-embedded/services/sdp.c:117-157 | A fixed-length element has one data byte for size index 0 and twice as many for each further index |
| SdpTree.NodeBytes | bt-embedded/services/sdp.c:487-507 | Every node of a tree has its own encoding at its offset |
| SdpTree.Contained | bt-embedded/services/sdp.c:448-468 | A node starts behind the start of each ancestor and ends within it |
| SdpReader.Reader.Next | bt-embedded/services/sdp.c:415-431 | The cursor moves to the next sibling, or to the first element after an enter, and reports whether there is one |
| SdpReader.Reader.Enter | bt-embedded/services/sdp.c:433-446 | The cursor steps in front of the children exactly of a sequence or choice |
| SdpReader.Reader.Leave | bt-embedded/services/sdp.c:470-485 | The cursor returns to the parent by re-scanning from the root; at the root nothing happens |
| SdpReader.FindSeqStartOffset | bt-embedded/services/sdp.c:448-468 | For every well-formed nested element the scan ends and returns the start of the true enclosing sequence |
| SdpReader.ScanTest | bt-embedded/services/sdp.c:456-464 | The scan's test for "this element contains the offset" is right exactly on the ancestors |
| SdpReader.NextFacts | bt-embedded/services/sdp.c:415-431 | What each exit of next finds, in terms of the tree |
| SdpWalk.LeaveUndoesEnter | bt-embedded/services/sdp.c:433-485 | After enter and any walk inside, leave is back at the element, for every tree and every walk |
| SdpWalk.EnterWalkLeave | bt-embedded/services/sdp.c:433-485 | The same on the reader object: offset, sequence start and depth are those before |
| SdpWalk.FlagAfterWalk | bt-embedded/services/sdp.c:415-485 | After a walk the next_called flag is set exactly if an element was stepped on since the last enter: the exact condition under which leave restores everything |
| SdpWalk.EmptyChildIsVisitedAgain | bt-embedded/services/sdp.c:415-485 | After an empty sequence was entered and left, next does not move on: the child is visited twice |
| SdpWalk.ChildOffsets | bt-embedded/services/sdp.c:415-485 | A plain loop of next visits each child exactly once, in order, and stops |
| SdpLoop.EachChildOnceIff | bt-embedded/services/obex.c:21-33 | A loop that enters children, walks inside and leaves them ends, and visits every child once and in order, if and only if every such walk leaves the flag set: some next in it found a child and no sequence was entered after that |
| SdpLoop.VisitChildren | bt-embedded/services/obex.c:57-70 | The same loop on the reader object |
| SdpWriter.VarSize | bt-embedded/services/sdp.c:173-190 | The size index and the length bytes of each length |
| SdpArgs.ShortestForm | bt-embedded/services/sdp.c:173-190 | The header written is the shortest that can hold the length |
| SdpWriter.ArraySize | bt-embedded/services/sdp.c:192-215 | The sizing of an array returns the number of bytes the writing emits if and only if it is no array of NIL with an entry in it |
| SdpWriter.ArrayWrite | bt-embedded/services/sdp.c:218-250 | The writing of an array puts the bytes of the array at the place given, behind a last string or URL its terminator, and touches nothing else |
| SdpWriter.DeWrite | bt-embedded/services/sdp.c:252-395 | At every nesting level the sizing pass and the writing pass return the same size and consume the same arguments; the buffer changes exactly if it is strictly larger, and by exactly the bytes of the specification, terminators and NIL arrays included |
| SdpWriter.WriteGroup | bt-embedded/services/sdp.c:252-395 | A nested sequence or choice: sized first, then its header and its contents written |
| SdpWriter.Write | bt-embedded/services/sdp.c:397-404 | Under the agreement condition the buffer holds the encoding of a well-formed tree exactly if it is larger than the size returned; the byte behind becomes 0 if and only if a non-empty array of strings or URLs was written last, and nothing else changes |
| SdpSearch.SearchPattern | bt-embedded/services/sdp.c:1000-1011 | More than 12 UUIDs are refused; up to nine the 32-byte buffer holds the pattern, with the stack behind it; from ten on it is as it was found on the stack |
| SdpSearch.NineFit | bt-embedded/services/sdp.c:1004-1009 | The pattern is smaller than the buffer if and only if there are nine UUIDs at most |
| SdpSearch.AskedIffNine | bt-embedded/services/sdp.c:1000-1011 | The UUIDs are what the server is asked for, whatever was on the stack, if and only if there are nine at most |
| SdpSearch.ServiceSearchUuid16 | bt-embedded/services/sdp.c:1000-1011 | The request holds the pattern of the UUIDs, or from ten on what the bytes on the stack declare |
| SdpWriter.ExactSizeIsNotEnough | bt-embedded/services/sdp.c:272-383 | A buffer of just the size returned by the first call is left unwritten, against the documentation in sdp.h:64-66 |
| SdpWriter.TerminatorBehindText | bt-embedded/services/sdp.c:245-247 | A concrete array of one string whose terminator changes the byte behind the element |
| SdpWriter.NilArrayOverruns | bt-embedded/services/sdp.c:192-250 | A concrete array of NIL for which 3 bytes are counted and 6 are written, past a buffer of 4 |
| SdpArgs.SizeIsExactWithoutNilArrays | bt-embedded/services/sdp.c:252-395 | The sizing pass reports the number of bytes of any argument list if and only if no array of NIL with an entry is in it, and never more |
| SdpArgs.WrittenWithoutNilArrays | bt-embedded/services/sdp.c:252-395 | Without such arrays the writing pass writes the bytes of the items, followed by a terminator if and only if a non-empty array of strings or URLs comes last |
| SdpArgs.ChunkWrittenAsElement | bt-embedded/services/sdp.c:218-250 | An array entry is written as the single value would be if and only if the type and entry agree |
| SdpArgs.SomeChunksDisagree | bt-embedded/services/sdp.c:218-250 | Concrete entries that are not: a bool stored as 2, a 128-bit UUID, and nil |
| SdpArgs.ArrayWrittenAsElements | bt-embedded/services/sdp.c:218-250 | So an array of integers, UUID16, UUID32, strings or URLs gives the bytes of its elements written one by one |
| SdpArgs.BytesAreEncoding | bt-embedded/services/sdp.c:252-395 | The bytes of any argument list that agrees are the encoding of its tree of elements |
| SdpClient.AnswerArrivesOnce | bt-embedded/services/sdp.c:734-899 | For every split of an attribute list below 64 KiB whose first part holds the header the client is called exactly once: with exactly the bytes sent if they are as many as declared, with one parser error otherwise |
| SdpClient.SearchAnswerArrives | bt-embedded/services/sdp.c:699-732 | A search reply that answers the outstanding request: one call with exactly the total, the number and the handles the server sent, and whether there is more; if the client wants it, the first parameters go out again with exactly the state received, and otherwise nothing is outstanding |
| SdpClient.SearchRound | bt-embedded/services/sdp.c:948-997 | The same on the client object, from the request on: what is sent and what is called, byte for byte |
| SdpClient.ShortSearchReply | bt-embedded/services/sdp.c:699-721 | A search reply that breaks off anywhere gives one parser error, and nothing is outstanding |
| SdpClient.ShortAttrReply | bt-embedded/services/sdp.c:734-757 | So does a part of an attribute list that breaks off in its count or its continuation state |
| SdpClient.ErrorArrives | bt-embedded/services/sdp.c:816-834 | An error reply is reported once with its code, for either kind of request; one with code 0 is ignored |
| SdpClient.RequestKeepsParameters | bt-embedded/services/sdp.c:671-696 | Through any number of rounds, while other clients draw from the same counter, the outstanding request has the first request's opcode and parameters, followed by exactly the last continuation state, and the id after all those given out |
| SdpClient.StrangersChangeNothing | bt-embedded/services/sdp.c:797-814 | A message with another transaction id or opcode, or with nothing outstanding, changes nothing |
| SdpClient.RestOfAnswer | bt-embedded/services/sdp.c:757-789 | The same from any point in the middle of an answer |
| SdpClient.HandleStaysReady | bt-embedded/services/sdp.c:757-789 | What has been gathered never exceeds the declared size, and that stays below 64 KiB |
| SdpClient.Client.Ask | bt-embedded/services/sdp.c:977-997 | A request is refused while one is outstanding; a failed one leaves none outstanding |
| SdpClient.Client.ServiceSearch | bt-embedded/services/sdp.c:948-997 | A service search asks with its pattern and maximum, then the empty continuation state, which stands behind just these |
| SdpClient.Client.ServiceAttr | bt-embedded/services/sdp.c:1013-1068 | An attribute request asks with record, maximum and id list |
| SdpClient.Client.ServiceSearchAttr | bt-embedded/services/sdp.c:1072-1129 | A combined request asks with pattern, maximum and id list |
| SdpClient.RequestIsReadBack | bt-embedded/services/sdp.c:1072-1104 | Pattern, maximum and id list are found again in these parameters by the sizes the elements declare |
| SdpClient.AttrRequestIsReadBack | bt-embedded/services/sdp.c:1013-1042 | Record, maximum and id list are found again in the parameters of an attribute request |
| SdpClient.Client.OnMessage | bt-embedded/services/sdp.c:792-899 | The client object with its buffer does what the specification function says, callbacks included; what that means for each kind of reply is in the rows around this one |
| SdpClient.Client.Gather | bt-embedded/services/sdp.c:734-790 | Each part is copied behind the parts before it, and the outcome is that of the specification |
| SdpClient.Client.Continue | bt-embedded/services/sdp.c:671-696 | The new request replaces the old one exactly if it could be made |
| Buffer.Cursor.Write | bt-embedded/buffer.h:242-264 | A write over any chain with headers writes as much as there is room for into the flat stream behind the headers, succeeds exactly if all fits, moves the place by what it wrote, and changes no header |
| Buffer.Cursor.Read | bt-embedded/buffer.h:461-485 | A read returns the next bytes of the flat stream and changes nothing but the place |
| Buffer.Cursor.End | bt-embedded/buffer.h:363-376 | The current packet is cut at the position; the total is the bytes written plus one header per packet; packets behind stay as they are |
| Buffer.WriteAll | bt-embedded/buffer.h:242-264 | Any run of writes is one write of all pieces together; each reports success exactly if everything so far fits or it is empty |
| Buffer.ReadAll | bt-embedded/buffer.h:461-485 | Any run of reads returns one contiguous piece of the stream, however it is divided |
| Buffer.WriteThenRead | bt-embedded/buffer.h:195-485 | Any writes followed by any reads behave as one flat stream: packet borders and piece sizes do not show |
| Buffer.FlatPatch | bt-embedded/buffer.h:242-264 | Writing inside one packet is writing at the corresponding place of the flat stream |
| Buffer.Alloc | bt-embedded/buffer.h:88-109 | A chain of blocks of the requested sizes, with memory of its own, or none for size 0 |
| Buffer.Append | bt-embedded/buffer.h:159-167 | The packet is linked behind the last one |
| AclFrames.StaysBelow | bt-embedded/acl.c:34-98 | On every packet stream, well formed or not, the announced bytes of a pending message stay strictly below the expected size, so the 16-bit remainder never wraps |
| AclFrames.RefusedMessageGoesBy | bt-embedded/acl.c:61-70 | After a refused first packet continuation packets change nothing and deliver nothing |
| AclFrames.MessageArrives | bt-embedded/acl.c:34-98 | A body for a channel, behind its L2CAP header and cut into frames: delivered whole after whatever was pending if it is for the signalling channel and has at most 672 bytes, or for an open channel and within its limit; otherwise nothing of it is |
| AclFrames.ArrivesExactlyWhenItFits | bt-embedded/acl.c:20-98 | Whatever was pending, a message arrives whole behind it if and only if its channel wants it by these limits and it takes one packet or is shorter than 0xffff bytes |
| AclFrames.OversizeDoesNotArrive | bt-embedded/acl.c:20-98 | Of a message that its channel wants but that is longer, nothing arrives, or first its first packet alone |
| AclFrames.MessagesArrive | bt-embedded/acl.c:34-98 | A sequence of messages is delivered exactly once each, in order, byte for byte, without those their channels do not want |
| AclFrames.ConnectionsAreIndependent | bt-embedded/acl.c:22-39 | However packets of different connections are mixed, each connection ends in the state and with the deliveries of its own packets alone |
| AclFrames.MixedMessagesArrive | bt-embedded/acl.c:34-98 | So the wanted messages of each connection arrive exactly once, in order, whatever the interleaving |
| AclFrames.FramesAreTheirOwn | bt-embedded/acl.c:341-353 | The frames of a connection's messages carry its handle: in any mixture they are its packets and nobody else's |
| AclFrames.FrameSays | bt-embedded/acl.c:341-350 | Handle, boundary flag, length and payload are read back from a frame |
| AclFrames.FrameBytes | bt-embedded/acl.c:341-350 | The bytes of a frame: 12 bits of handle, two flags of two bits, the length, the low byte first |
| Acl.CountIsRoundedUp | bt-embedded/utils.h:74-81 | The number of packets by rounded-up division is the number the cutting produces |
| Acl.CreateMessage | bt-embedded/acl.c:329-358 | Every packet has the full size and carries the header of its fragment |
| Acl.CutToFrames | bt-embedded/acl.c:329-358 | Headers in place, payload written and the last packet cut, the chain holds exactly the frames of the message |
| Acl.Fragment | bt-embedded/acl.c:329-358 | Creating, writing in any pieces and ending a message leaves exactly its frames in the chain |
| AclReceiver.Connection.OnData | bt-embedded/acl.c:34-98 | On counted packets: the receiver does what the specification function says, deliveries included; of the references that were there the old list is given up, the new one is held and the client keeps what it took; a packet is freed if and only if nobody holds it, which happens only to fragments of a delivered message; links of packets outside the list and the outgoing queue stay as they are |
| AclReceiver.Connection.Deliver | bt-embedded/acl.c:44-57 | The pending packets are handed over as one stream and given up; nothing but packets of the message is freed |
| AclReceiver.Connection.Add | bt-embedded/buffer.h:159-167 | A packet joins the pending ones at the end, with a reference of its own |
| AclReceiver.SettledThen | bt-embedded/acl.c:34-98 | What two steps of a delivery do to references and links adds up |
| AclRuns.RunSteps | bt-embedded/acl.c:34-160 | For any number of connections over one memory, on every run of messages, references taken and given up, completions, disconnections, new connections and received packets: counts equal holders; every connection has gathered and delivered exactly what the specification says of its own packets; its list is apart from the queue and from all others; and the queue and its history are where its own steps bring them |
| AclRuns.Perform | bt-embedded/acl.c:34-160 | Every step keeps that; a connection gains a packet exactly if it is open and the packet carries its handle |
| AclRuns.OthersKeepSound | bt-embedded/hci_dev.c:175-222 | What callers, controller and backend do leaves the list of every connection as it is |
| AclRuns.DataKeepsSound | bt-embedded/acl.c:34-98 | A packet for one connection leaves the lists of the others as they are, and its own apart from them |
| AclRuns.MessagesReachTheirConnection | bt-embedded/acl.c:34-98 | So messages sent to a connection in packets arrive whole, once and in order, whatever happens in between |
| AclRuns.HalfReceivedIsLost | bt-embedded/acl.c:163-169 | What a connection has gathered when it is disconnected is never given up: for every first packet of a longer message that its channel wants, and whatever follows, the packet stays in memory |
| AclRuns.ClosedStaysClosed | bt-embedded/acl.c:115-160 | A disconnected connection gets nothing more |
| PacketRefs.DropBalanced | bt-embedded/buffer.h:145-151 | Giving up a reference keeps every count equal to the number of holders and changes nothing but counts and membership |
| PacketRefs.FreedExactlyWhenUnheld | bt-embedded/buffer.h:145-151 | A packet is freed if and only if neither a remaining reference nor the link of a remaining packet holds it |
| PacketRefs.DropFreesPrefix | bt-embedded/acl.c:75-89 | Releasing a list frees exactly the packets in front of the first one that somebody else holds, and that one counts one holder less |
| PacketRefs.DropKeepsOthers | bt-embedded/buffer.h:145-151 | Releasing a list frees no packet outside it |
| PacketRefs.LinkedBehind | bt-embedded/buffer.h:159-167 | Appending keeps the balance and gives the joined list |
| PacketRefs.CutOutBalanced | bt-embedded/acl.c:126-132 | Taking a packet out of a list passes its link to the packet before it and its own reference to the caller |
| PacketRefs.ChainKept | bt-embedded/hci_dev.c:175-215 | A list whose head is held survives whatever else is given up and whatever links of other packets change |
| HciRuns.Run | bt-embedded/hci_dev.c:175-235 | On every run of new messages, references taken and given up, completions, disconnections and buffer sizes, for every behaviour of the backend: the queue, its credits and its whole history are those of a queue without memory that makes the same steps; counts equal holders and no held packet is missing; packets wait only without credits; what was queued for a connection since its last disconnection is what was sent and what waits, in order; and available plus in-flight plus failed credits are the maximum, exactly while the controller is honest and modulo 2^16 in any case |
| HciRuns.Perform | bt-embedded/hci_dev.c:175-235 | Every step moves the queue as a function of the step says, keeps the references of all other holders, and changes neither data nor links of packets outside the queue |
| HciRuns.SendRow | bt-embedded/acl.c:360-384 | Messages handed to the real queue one after the other: every one is a send in the sense of the credits, and if there are more messages than credits one of them returns 0 |
| HciRuns.FailedSendStarves | bt-embedded/hci_dev.c:184-213 | A run of the queue: a controller of one packet refuses the first, and the second waits with no credit left and nothing in flight |
| HciRuns.PurgeAmongMessages | bt-embedded/acl.c:115-135 | With messages for any connections queued in any order and no credit left, the end of one connection leaves waiting exactly the frames of the others' messages, in order |
| HciQueue.Device.Unref | bt-embedded/buffer.h:145-151 | The recursive release computes the specification, touches no freed packet and ends |
| HciQueue.Device.SendQueued | bt-embedded/hci_dev.c:175-215 | Exactly as many packets as there are credits leave, from the head; the return value is their number, or minus the number of errors; afterwards the queue is empty or there is no credit; no other packet is touched |
| HciQueue.Device.SendMessage | bt-embedded/acl.c:360-384 | The message is queued behind everything else, what the credits allow is sent in order, and the caller's reference is given up; the result is minus the number of errors, or else 1 if nothing waits any more and 0 if something does. A result other than 0 has used up a credit, and 0 means that none is left. Only the queue and the message are touched |
| HciQueue.FailuresAreRefusals | bt-embedded/hci_dev.c:184-213 | The errors are the packets the backend refused, each counted once |
| HciQueue.Device.OnCompletedPackets | bt-embedded/hci_dev.c:217-222 | As many credits as the controller says are added in 16 bits, and waiting packets use them; no packet outside the queue is touched |
| HciQueue.CompletedTallies | bt-embedded/hci_dev.c:217-222 | With that the credits still add up, modulo 2^16 or, if the controller completed no more than it had accepted, exactly |
| HciQueue.Device.NrOfCompletedPackets | bt-embedded/hci.c:491-503 | The counts of all connections are added up in 16 bits and given back as one |
| HciQueue.TotalAdds | bt-embedded/hci.c:491-503 | Counts of several connections add up |
| HciQueue.Device.SetBufferSize | bt-embedded/hci_dev.c:224-235 | The size counts only while the credit counter is unset |
| HciQueue.Device.Disconnected | bt-embedded/acl.c:115-135 | Exactly the packets of the connection leave the queue; credits, all other packets and all links outside the queue stay |
| HciQueue.Device.Cancel | bt-embedded/acl.c:122-133 | One packet is unlinked and given up |
| HciQueue.Device.Append | bt-embedded/acl.c:75-97 | A link from a reassembly list is a further holder |
| QueueHistory.FirstInFirstOut | bt-embedded/hci_dev.c:175-215 | On every legal history what was queued for a connection since its last purge is what was sent and what still waits, in order |
| QueueHistory.PurgeTakesItsOwn | bt-embedded/acl.c:119-135 | A purge removes all packets of its connection and none of any other |
| QueueHistory.FramesBelong | bt-embedded/acl.c:119-135 | Every packet of a message belongs to its connection and to no other, whatever its flags |
| QueueHistory.PurgeOfMessages | bt-embedded/acl.c:119-135 | So a purge takes out all frames of messages for its connection and leaves those of the others in order |
| DataMatcher.Matcher.AddRule | bt-embedded/data_matcher.h:50-67 | A rule is added behind the others exactly if it fits the 16 bytes; otherwise nothing changes |
| DataMatcher.Matcher.Compare | bt-embedded/data_matcher.h:69-83 | The packed comparison accepts exactly the data that obey every rule, short data included |
| DataMatcher.Matcher.IsSame | bt-embedded/data_matcher.h:85-101 | Two matchers are the same exactly if they hold the same rules |
| DataMatcher.Matcher.RuleAt | bt-embedded/data_matcher.h:24-32 | Where each rule stands in the packed bytes |
| DataMatcher.SameOrApart | bt-embedded/hci.c:46-53 | Two patterns of the library are the same, or no event is accepted by both |
| DataMatcher.AcceptedByItsOwn | bt-embedded/hci.c:40-60 | Of all patterns of the library, an event of any kind, as the controller sends it, is accepted by exactly the one for its code and the opcode, handle or address it holds |
| DataMatcher.Build | bt-embedded/hci_dev.c:456-465 | Every pattern of the library fits, so it is built whole |
| PendingCommands.Table.Alloc | bt-embedded/hci_dev.c:389-423 | The first free slot is taken and no occupied one overwritten, on the fast path too; it fails exactly if all 8 are occupied or an equal pattern stands before the first free slot |
| PendingCommands.Table.FreeCommand | bt-embedded/hci_dev.c:486-492 | The slot is freed and the counter still equals the number of occupied slots |
| PendingCommands.Table.Dispose | bt-embedded/hci_dev.c:54-63 | A removed client owns no slot and no other slot changes |
| PendingCommands.Table.Find | bt-embedded/hci_dev.c:65-78 | The first occupied slot whose pattern the event has |
| PendingCommands.OccupiedBounds | bt-embedded/hci_dev.c:393-415 | The counter is 0 exactly if all slots are free and 8 exactly if none is |
| PendingCommands.EqualsRefusedExactlyWithoutGap | bt-embedded/hci_dev.c:397-415 | Every equal pattern is refused if and only if no free slot stands before an occupied one |
| PendingCommands.DistinctExactlyWithoutEqual | bt-embedded/hci_dev.c:397-421 | Taking a slot keeps the patterns distinct if and only if none equal was waiting |
| PendingCommands.EqualGetsInThroughGap | bt-embedded/hci_dev.c:400-405 | A run on the eight slots: two commands, the reply to the first, and the second one issued again gets in twice; its first reply reaches the wrong client |
| PendingCommands.SecondPhaseIsLost | bt-embedded/hci.c:410-436 | A run that fills all eight slots: the first status is delivered as a success, and its client waits for nothing more |
| PendingCommands.Table.Issue | bt-embedded/hci_dev.c:444-484 | A command is registered exactly if a slot is free and no equal pattern stands before it; with one behind it two equal patterns wait from then on, and otherwise the book of who waits for what stays right |
| PendingCommands.Table.DeliverReply | bt-embedded/hci_dev.c:113-125 | With no two equal patterns, an event reaches exactly the client that waits for it, once, whatever the slots; an event nobody waits for changes nothing |
| PendingCommands.Table.DeliverStatus | bt-embedded/hci.c:410-436 | On success the client waits for the final event from then on; the second phase is lost exactly if all slots were occupied or its pattern was waiting, and only an equal pattern behind a free slot spoils the book |
| PendingCommands.Table.RemoveClient | bt-embedded/hci_dev.c:348-352 | A removed client waits for nothing, and everybody else waits as before |
| PendingRuns.Run | bt-embedded/hci_dev.c:389-492 | On every run of commands, replies, statuses and removed clients, up to a step that would let an equal pattern in behind a free slot: the eight slots do exactly what a book without slots does, with the same calls in the same order |
| PendingRuns.EventReachesIssuer | bt-embedded/hci.c:383-436 | A command that found room is answered to the client that issued it, exactly once, by the first event with its pattern, whatever others do in between; after the status of a command with a second phase the same client waits for the next event |
| PendingRuns.NobodyElseIsCalled | bt-embedded/hci_dev.c:113-125 | Everybody who is called or waits has issued a command |
| PendingRuns.BookCount | bt-embedded/hci_dev.c:389-423 | As many commands wait as slots are occupied |

## Left out

- L2capRuns.Run: a request of nearly 64 KiB over which the 16-bit counter of the walk wraps stops a run as a loop without end does; credits change between two steps, not within one.
- L2capConfig.WriteFrom: the seven option blocks of the cascade are one recursive method over the option number.
- L2capUnknown.ReplyTypeError: the reply is what the walk hands to the writer, which drops what does not fit the packets allocated for the counted size; uninitialised local variables are modelled as memory that keeps what it held.
- L2capChannel.Channel.HandleConfigureReq: of re-entrant calls from the configure callback only a disconnection is modelled; with the flag bits above the lowest set, the lifetime of the configuration record is not.
- SdpClient.SearchAnswerArrives: the code turns the handles round in the received packet itself; here they come out as numbers.
- L2capReplies.TakeResponse: the parts are given to the handler one after the other; that the channel asks for the next part is L2capReplies.MoreIsAnnounced.
- L2CAP state change callbacks, connectionless data, echo and information payloads, command rejects and the server registry.
- SdpWriter.Write: integers wider than their type, pointers and varargs are tokens of an argument list with values in range; at most 255 nesting levels.
- SdpReader.Reader.Leave: the reader stands on a well-formed element; what it does on other bytes is not modelled.
- The typed reads of the SDP reader (`bte_sdp_de_reader_read_*`), which decode one value each.
- SdpClient.Client.OnMessage: requires the attribute bytes of a reply to lie inside its parameters, the first part to hold the element header, and error replies to hold their code; the code takes these for granted.
- SdpClient.Client.Ask: requests of more than one packet are not modelled, and the elements a caller points at are required to be complete and to leave the parameters below 64 KiB. A request that fails to be made again leaves the old one outstanding, as in the code.
- Buffer.Cursor.Write: every packet is required to be at least as long as the reserved header, as the packets the library allocates are.
- The pointer-returning accesses of buffer readers and writers (`ptr_n`, `ptr_max`, `read_n`, `read_max`) and `bte_buffer_shrink`.
- Acl.Fragment: requires an MTU above the header length and a total size in 16 bits, as `_bte_compute_fragmented_size` truncates otherwise; memory always suffices.
- AclReceiver.Connection.OnData: requires a first packet to hold the L2CAP header, which the size test reads in place, and a packet that is in no list; the client may keep any packets of a message, but does not change the connection in its callback.
- AclFrames.StaysBelow: the same condition on first packets.
- AclFrames.ConnectionsAreIndependent: the table of seven connections is a map from handles, and the set of open channels with their MTUs does not change during the stream.
- HciQueue.Device.SendQueued: the backend does not call back into the queue while it takes a packet.
- SdpSearch.ServiceSearchUuid16: from ten UUIDs on, what was on the stack is required to declare no more than the buffer holds; reading on behind it is not modelled.
- AclRuns.RunSteps: any number of connections may be open, not seven at most; a new one with a handle in use is passed over, and so are packets too short for their headers. What `AclReceiver.Connection.OnData` leaves out holds here too.
- PendingRuns.Run: commands are those the library makes; what happens after an equal pattern got in is not described beyond `PendingCommands.EqualGetsInThroughGap`.
- HciQueue and AclReceiver work on packets as entries of a map and `Buffer` on packets as objects; that both are the same packets is not expressed in Dafny. Total sizes of chains are not modelled.
- PendingCommands.Table.DeliverStatus: the union of temporary data per client is one request per call, that is one command per client awaiting its status; callbacks do not change the table.
- The slots of the table hold rule lists; that the packed matcher compares and accepts exactly like rule lists is in `DataMatcher`.
- Backends, drivers, start-up, one-shot HCI commands and their decoders, event handler tables, lifetimes of ACL, L2CAP and client objects, memory exhaustion, and atomicity beyond counting.
