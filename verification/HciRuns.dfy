/** Runs of the outgoing queue: any sequence of messages, completions, disconnections and releases. */
module HciRuns {
  import opened Prelude
  import opened Bytes
  import AclCredits
  import opened AclFrames
  import opened PacketRefs
  import opened QueueHistory
  import opened HciQueue

  datatype Step =
    | Send(packets: seq<seq<byte>>, keep: bool)
    | TakeRef(b: Id)
    | GiveUp(b: Id)
    | Complete(counts: seq<u16>)
    | Disconnect(h: u16)
    | BufferSize(maxPackets: u16)

  /** What a step means for the queue, whatever is in memory. */
  function Stepped(accepts: nat -> bool, s: Plain, step: Step): Plain {
    match step
    case Send(packets, _) => if packets == [] then s else Drained(accepts, Enqueued(s, packets))
    case Complete(counts) => Drained(accepts, Credited(s, Total(counts) % 0x1_0000))
    case Disconnect(h) => PurgedOf(s, h)
    case BufferSize(maxPackets) => Sized(s, maxPackets)
    case TakeRef(_) => s
    case GiveUp(_) => s
  }

  function AfterSteps(accepts: nat -> bool, steps: seq<Step>): Plain {
    if steps == [] then Plain([], UNSET, 0, [])
    else Stepped(accepts, AfterSteps(accepts, steps[..|steps| - 1]), steps[|steps| - 1])
  }

  lemma OneMoreStep(accepts: nat -> bool, steps: seq<Step>, i: nat)
    requires i < |steps|
    ensures AfterSteps(accepts, steps[..i + 1]) == Stepped(accepts, AfterSteps(accepts, steps[..i]), steps[i])
  {
    assert steps[..i + 1][..i] == steps[..i];
  }

  lemma NoSteps(accepts: nat -> bool, steps: seq<Step>)
    ensures AfterSteps(accepts, steps[..0]) == Plain([], UNSET, 0, [])
  {
  }

  lemma AllSteps(steps: seq<Step>)
    ensures steps[..|steps|] == steps
  {
  }

  /** What was there stays as it was, and more may be there. */
  ghost predicate Extends(before: Cells, after: Cells) {
    forall q :: q in before ==> q in after && after[q] == before[q]
  }

  /** An address where nothing is. */
  method FreshAddress(d: Device) returns (b: Id)
    ensures b !in d.cells
  {
    b := 0;
    ghost var below: set<Id> := {};
    while b in d.cells
      invariant |below| == b && below <= d.cells.Keys && forall i :: i in below ==> i < b
      decreases |d.cells| - b
    {
      SmallerIsFewer(below + {b}, d.cells.Keys);
      below := below + {b};
      b := b + 1;
    }
  }

  lemma SmallerIsFewer(a: set<Id>, b: set<Id>)
    requires a <= b
    ensures |a| <= |b|
  {
    assert b == a + (b - a);
  }

  /** A list of packets to be sent: the caller holds the first, and none of them waits in the queue. */
  ghost predicate Built(cells: Cells, queue: seq<Id>, head: Option<Id>, ids: seq<Id>, packets: seq<seq<byte>>) {
    && Chain(cells, head, ids) && (forall i :: 0 <= i < |ids| ==> ids[i] in cells) && DataOf(cells, ids) == packets
    && (forall i, j :: 0 <= i < |queue| && 0 <= j < |ids| ==> queue[i] != ids[j])
  }

  lemma BuiltBefore(cells: Cells, queue: seq<Id>, head: Option<Id>, ids: seq<Id>, packets: seq<seq<byte>>, b: Id,
                    data: seq<byte>)
    requires Built(cells, queue, head, ids, packets) && b !in cells
    requires forall i :: 0 <= i < |queue| ==> queue[i] in cells
    ensures Built(cells[b := Cell(1, head, data)], queue, Some(b), [b] + ids, [data] + packets)
  {
    ChainBefore(cells, head, ids, b, data);
    var after, all := cells[b := Cell(1, head, data)], [b] + ids;
    hide Chain, DataOf;
    forall i, j | 0 <= i < |queue| && 0 <= j < |all|
      ensures queue[i] != all[j]
    {
      if j > 0 {
        assert all[j] == ids[j - 1];
      }
    }
  }

  /** A new packet in front of a list. */
  lemma ChainBefore(cells: Cells, head: Option<Id>, ids: seq<Id>, b: Id, data: seq<byte>)
    requires Chain(cells, head, ids) && b !in cells
    ensures forall i :: 0 <= i < |ids| ==> ids[i] in cells
    ensures
      var after, all := cells[b := Cell(1, head, data)], [b] + ids;
      && Chain(after, Some(b), all) && (forall i :: 0 <= i < |all| ==> all[i] in after)
      && DataOf(after, all) == [data] + DataOf(cells, ids)
  {
    HeadIsFirst(cells, head, ids);
    var after, all := cells[b := Cell(1, head, data)], [b] + ids;
    forall i | 0 <= i < |all|
      ensures all[i] in after && after[all[i]].next == At(all, i + 1)
    {
      BeforeAt(cells, head, ids, b, data, i);
    }
    forall i, j | 0 <= i < j < |all|
      ensures all[i] != all[j]
    {
      BeforeApart(cells, head, ids, b, i, j);
    }
    assert Chain(after, Some(b), all);
    hide Chain;
    assert DataOf(after, all) == [data] + DataOf(cells, ids);
  }

  lemma BeforeAt(cells: Cells, head: Option<Id>, ids: seq<Id>, b: Id, data: seq<byte>, i: nat)
    requires Chain(cells, head, ids) && b !in cells && i <= |ids|
    ensures
      var after, all := cells[b := Cell(1, head, data)], [b] + ids;
      all[i] in after && after[all[i]].next == At(all, i + 1)
  {
    HeadIsFirst(cells, head, ids);
    hide Chain;
    if i > 0 {
      ChainNext(cells, head, ids, i - 1);
      assert ([b] + ids)[i] == ids[i - 1];
    }
  }

  lemma BeforeApart(cells: Cells, head: Option<Id>, ids: seq<Id>, b: Id, i: nat, j: nat)
    requires Chain(cells, head, ids) && b !in cells && i < j <= |ids|
    ensures ([b] + ids)[i] != ([b] + ids)[j]
  {
    HeadIsFirst(cells, head, ids);
    hide Chain;
    if i > 0 {
      Distinct(cells, head, ids, i - 1, j - 1);
    }
  }

  /** A message as a list of new packets: every packet holds the next, and the caller the first. */
  method Build(d: Device, packets: seq<seq<byte>>) returns (head: Option<Id>, ghost ids: seq<Id>)
    requires d.Valid()
    modifies d`cells, d`held
    ensures d.Valid() && d.held == old(d.held) + Head(head) && Built(d.cells, d.queue, head, ids, packets)
    ensures d.Now() == old(d.Now()) && Extends(old(d.cells), d.cells)
    ensures (forall i :: 0 <= i < |ids| ==> ids[i] !in old(d.cells)) && (head.Some? <==> packets != [])
  {
    hide *;
    head, ids := None, [];
    var i := |packets|;
    ghost var held, built: seq<seq<byte>> := d.held, [];
    ghost var before := d.cells;
    NothingBuilt(d.cells, d.queue);
    NothingNew(before);
    NothingHeld(held);
    assert packets[i..] == built;
    while i > 0
      invariant 0 <= i <= |packets| && d.Valid() && d.held == held + Head(head)
      invariant Built(d.cells, d.queue, head, ids, built) && built == packets[i..] && (head.Some? <==> built != [])
      invariant d.Now() == old(d.Now()) && Extends(before, d.cells)
      invariant forall i :: 0 <= i < |ids| ==> ids[i] !in before
    {
      i := i - 1;
      NextInFront(packets, i);
      var b := FreshAddress(d);
      QueueIsThere(d);
      BuiltBefore(d.cells, d.queue, head, ids, built, b, packets[i]);
      HeadPasses(held, head, b);
      OneMoreNew(before, d.cells, ids, b, Cell(1, head, packets[i]));
      d.AllocBefore(b, packets[i], head);
      head, ids, built := Some(b), [b] + ids, [packets[i]] + built;
    }
    NoneLeft(packets);
  }

  lemma NextInFront(packets: seq<seq<byte>>, i: nat)
    requires i < |packets|
    ensures packets[i..] == [packets[i]] + packets[i + 1..]
  {
  }

  lemma NoneLeft(packets: seq<seq<byte>>)
    ensures packets[0..] == packets
  {
  }

  lemma NothingHeld(held: multiset<Id>)
    ensures held + Head(None) == held
  {
  }

  /** The reference to the head passes to the link of the packet in front of it. */
  lemma HeadPasses(held: multiset<Id>, head: Option<Id>, b: Id)
    ensures Head(head) <= held + Head(head)
    ensures held + Head(head) - Head(head) + multiset{b} == held + Head(Some(b))
  {
  }

  lemma NothingNew(cells: Cells)
    ensures Extends(cells, cells)
  {
  }

  lemma OneMoreNew(before: Cells, cells: Cells, ids: seq<Id>, b: Id, c: Cell)
    requires Extends(before, cells) && b !in cells && forall i :: 0 <= i < |ids| ==> ids[i] !in before
    ensures Extends(before, cells[b := c]) && forall i :: 0 <= i < |ids| + 1 ==> ([b] + ids)[i] !in before
  {
  }

  lemma NothingBuilt(cells: Cells, queue: seq<Id>)
    ensures Built(cells, queue, None, [], [])
  {
  }

  lemma QueueIsThere(d: Device)
    requires d.Valid()
    ensures forall i :: 0 <= i < |d.queue| ==> d.queue[i] in d.cells
  {
  }

  /** What other holders see of a step: packets outside the queue keep their data and links, and only packets of the
      queue or new ones wait afterwards. */
  ghost predicate Others(before: Cells, queueBefore: seq<Id>, after: Cells, queueAfter: seq<Id>) {
    && LeavesAlone(queueBefore, before, after)
    && forall i :: 0 <= i < |queueAfter| ==> queueAfter[i] in queueBefore || queueAfter[i] !in before
  }

  /** Between `mine` and `left` the references of all others stay. */
  predicate OthersHold(before: multiset<Id>, mine: multiset<Id>, after: multiset<Id>, left: multiset<Id>) {
    before - mine + left <= after
  }

  /** What a caller may do with the references it holds, what the controller may complete, and the rest. The queue
      moves as the step says, others keep what they hold, and what they see of the packets stays. */
  method Perform(d: Device, mine: multiset<Id>, step: Step) returns (left: multiset<Id>)
    requires d.Valid() && mine <= d.held
    modifies d
    ensures d.Valid() && left <= d.held && d.Now() == Stepped(d.accepts, old(d.Now()), step)
    ensures Others(old(d.cells), old(d.queue), d.cells, d.queue) && OthersHold(old(d.held), mine, d.held, left)
  {
    hide *;
    left := mine;
    match step
    case Send(packets, keep) => left := SendNew(d, mine, packets, keep);
    case TakeRef(b) => left := TakeOne(d, mine, b);
    case GiveUp(b) => left := GiveOne(d, mine, b);
    case Complete(counts) => CompleteAll(d, mine, counts);
    case Disconnect(h) => Cut(d, mine, h);
    case BufferSize(maxPackets) => Resize(d, mine, maxPackets);
  }

  method TakeOne(d: Device, mine: multiset<Id>, b: Id) returns (left: multiset<Id>)
    requires d.Valid() && mine <= d.held
    modifies d
    ensures d.Valid() && left <= d.held && d.Now() == Stepped(d.accepts, old(d.Now()), TakeRef(b))
    ensures Others(old(d.cells), old(d.queue), d.cells, d.queue) && OthersHold(old(d.held), mine, d.held, left)
  {
    hide *;
    left := mine;
    ghost var before, held := d.cells, d.held;
    OnlyCounts(d.accepts, before, b, d.queue);
    Untouched(held, mine);
    if b in mine {
      IsHeld(d, mine, b);
      d.Ref(b);
      left := mine + multiset{b};
      OneMoreOrLess(held, mine, b);
      OneCounted(before, b, d.queue);
    }
  }

  method GiveOne(d: Device, mine: multiset<Id>, b: Id) returns (left: multiset<Id>)
    requires d.Valid() && mine <= d.held
    modifies d
    ensures d.Valid() && left <= d.held && d.Now() == Stepped(d.accepts, old(d.Now()), GiveUp(b))
    ensures Others(old(d.cells), old(d.queue), d.cells, d.queue) && OthersHold(old(d.held), mine, d.held, left)
  {
    hide *;
    left := mine;
    ghost var before, held := d.cells, d.held;
    OnlyCounts(d.accepts, before, b, d.queue);
    Untouched(held, mine);
    if b in mine {
      IsHeld(d, mine, b);
      d.Release(b);
      left := mine - multiset{b};
      OneMoreOrLess(held, mine, b);
      FreedForOthers(before, d.cells, d.queue);
    }
  }

  lemma OnlyCounts(accepts: nat -> bool, cells: Cells, b: Id, queue: seq<Id>)
    ensures forall s :: Stepped(accepts, s, TakeRef(b)) == s && Stepped(accepts, s, GiveUp(b)) == s
    ensures Others(cells, queue, cells, queue)
  {
  }

  lemma OneCounted(before: Cells, b: Id, queue: seq<Id>)
    requires b in before
    ensures Others(before, queue, before[b := before[b].(refs := before[b].refs + 1)], queue)
  {
  }

  lemma FreedForOthers(before: Cells, after: Cells, queue: seq<Id>)
    requires OnlyFrees(before, after)
    ensures Others(before, queue, after, queue)
  {
  }

  lemma Untouched(held: multiset<Id>, mine: multiset<Id>)
    requires mine <= held
    ensures OthersHold(held, mine, held, mine)
  {
  }

  lemma OneMoreOrLess(held: multiset<Id>, mine: multiset<Id>, b: Id)
    requires b in mine && mine <= held
    ensures mine + multiset{b} <= held + multiset{b}
    ensures OthersHold(held, mine, held + multiset{b}, mine + multiset{b})
    ensures mine - multiset{b} <= held - multiset{b}
    ensures OthersHold(held, mine, held - multiset{b}, mine - multiset{b})
  {
  }

  method CompleteAll(d: Device, ghost mine: multiset<Id>, counts: seq<u16>)
    requires d.Valid() && mine <= d.held
    modifies d
    ensures d.Valid() && mine <= d.held && d.Now() == Stepped(d.accepts, old(d.Now()), Complete(counts))
    ensures Others(old(d.cells), old(d.queue), d.cells, d.queue) && OthersHold(old(d.held), mine, d.held, mine)
  {
    hide LinksTo, Balanced, Chain, NoneDying, Replay, Drained, Credited, Total;
    var _ := d.NrOfCompletedPackets(counts);
  }

  method Cut(d: Device, ghost mine: multiset<Id>, h: u16)
    requires d.Valid() && mine <= d.held
    modifies d
    ensures d.Valid() && mine <= d.held && d.Now() == Stepped(d.accepts, old(d.Now()), Disconnect(h))
    ensures Others(old(d.cells), old(d.queue), d.cells, d.queue) && OthersHold(old(d.held), mine, d.held, mine)
  {
    hide LinksTo, Balanced, Chain, NoneDying, Replay, PurgedOf;
    d.Disconnected(h);
  }

  method Resize(d: Device, ghost mine: multiset<Id>, maxPackets: u16)
    requires d.Valid() && mine <= d.held
    modifies d
    ensures d.Valid() && mine <= d.held && d.Now() == Stepped(d.accepts, old(d.Now()), BufferSize(maxPackets))
    ensures Others(old(d.cells), old(d.queue), d.cells, d.queue) && OthersHold(old(d.held), mine, d.held, mine)
  {
    hide LinksTo, Balanced, Chain, NoneDying, Replay, Sized;
    d.SetBufferSize(maxPackets);
  }

  lemma IsHeld(d: Device, mine: multiset<Id>, b: Id)
    requires d.Valid() && mine <= d.held && b in mine
    ensures b in d.held && b in d.cells
  {
  }

  /** A new message goes out; the caller may keep a reference to its first packet. */
  method SendNew(d: Device, mine: multiset<Id>, packets: seq<seq<byte>>, keep: bool) returns (left: multiset<Id>)
    requires d.Valid() && mine <= d.held
    modifies d
    ensures d.Valid() && left <= d.held && d.Now() == Stepped(d.accepts, old(d.Now()), Send(packets, keep))
    ensures Others(old(d.cells), old(d.queue), d.cells, d.queue) && OthersHold(old(d.held), mine, d.held, left)
  {
    hide *;
    left := mine;
    ghost var before, held := d.cells, d.held;
    var head;
    ghost var ids;
    head, ids := Build(d, packets);
    SendMeans(d.accepts, packets, keep);
    if head.Some? {
      left := SendBuilt(d, before, held, mine, packets, head.value, ids, keep);
    } else {
      SameForOthers(before, d.cells, d.queue);
      NothingSent(held, mine);
    }
  }

  /** A message that has just been built goes out. */
  method SendBuilt(d: Device, ghost before: Cells, ghost held: multiset<Id>, mine: multiset<Id>,
                   ghost packets: seq<seq<byte>>, b: Id, ghost ids: seq<Id>, keep: bool)
    returns (left: multiset<Id>)
    requires d.Valid() && mine <= held && d.held == held + Head(Some(b)) && Extends(before, d.cells)
    requires Built(d.cells, d.queue, Some(b), ids, packets) && forall i :: 0 <= i < |ids| ==> ids[i] !in before
    modifies d
    ensures d.Valid() && left <= d.held && d.Now() == Drained(d.accepts, Enqueued(old(d.Now()), packets))
    ensures Others(before, old(d.queue), d.cells, d.queue) && OthersHold(held, mine, d.held, left)
  {
    hide *;
    left := mine;
    ghost var built, queue := d.cells, d.queue;
    HeadThere(d, held, b);
    if keep {
      BuiltStill(d.cells, d.queue, Some(b), ids, packets, b);
      d.Ref(b);
      left := mine + multiset{b};
    }
    BuiltCanQueue(d, b, ids, packets);
    ghost var now, sending := d.cells, d.held;
    var _ := d.SendMessage(b, ids);
    NewMessage(before, built, now, d.cells, queue, ids, d.queue, b);
    SendHeld(held, mine, b, keep, sending, d.held, left);
  }

  lemma HeadThere(d: Device, held: multiset<Id>, b: Id)
    requires d.Valid() && d.held == held + Head(Some(b))
    ensures b in d.held && b in d.cells
  {
  }

  /** A new message touches the queue and itself. */
  lemma NewMessage(before: Cells, built: Cells, now: Cells, after: Cells, queue: seq<Id>, ids: seq<Id>,
                   queueAfter: seq<Id>, b: Id)
    requires Extends(before, built) && b in built && OnlyTouches(queue + ids, now, after)
    requires now == built || now == built[b := built[b].(refs := built[b].refs + 1)]
    requires forall i :: 0 <= i < |ids| ==> ids[i] !in before
    requires forall i :: 0 <= i < |queueAfter| ==> queueAfter[i] in queue + ids
    ensures Others(before, queue, after, queueAfter)
  {
    forall q | q in before && q in after
      ensures after[q].data == before[q].data && (q !in queue ==> after[q].next == before[q].next)
    {
      assert q in built && q in now;
      assert q in queue + ids ==> q in queue;
    }
  }

  lemma SameForOthers(before: Cells, after: Cells, queue: seq<Id>)
    requires Extends(before, after)
    ensures Others(before, queue, after, queue)
  {
  }

  lemma SendMeans(accepts: nat -> bool, packets: seq<seq<byte>>, keep: bool)
    ensures
      forall s :: Stepped(accepts, s, Send(packets, keep))
               == if packets == [] then s else Drained(accepts, Enqueued(s, packets))
  {
  }

  lemma SendHeld(held: multiset<Id>, mine: multiset<Id>, b: Id, keep: bool, sending: multiset<Id>,
                 after: multiset<Id>, left: multiset<Id>)
    requires mine <= held && left == if keep then mine + multiset{b} else mine
    requires sending == if keep then held + Head(Some(b)) + multiset{b} else held + Head(Some(b))
    requires sending - multiset{b} <= after
    ensures left <= after && OthersHold(held, mine, after, left)
  {
    if keep {
      assert sending - multiset{b} == held + multiset{b};
    } else {
      assert sending - multiset{b} == held;
    }
  }

  lemma NothingSent(held: multiset<Id>, mine: multiset<Id>)
    requires mine <= held
    ensures held + Head(None) == held && OthersHold(held, mine, held, mine)
  {
  }

  lemma BuiltStill(cells: Cells, queue: seq<Id>, head: Option<Id>, ids: seq<Id>, packets: seq<seq<byte>>, b: Id)
    requires Built(cells, queue, head, ids, packets) && b in cells
    ensures Built(cells[b := cells[b].(refs := cells[b].refs + 1)], queue, head, ids, packets)
  {
    ChainCounts(cells, b, head, ids);
    hide Chain;
  }

  lemma BuiltCanQueue(d: Device, b: Id, ids: seq<Id>, packets: seq<seq<byte>>)
    requires Built(d.cells, d.queue, Some(b), ids, packets)
    ensures d.CanQueue(b, ids) && (forall i :: 0 <= i < |ids| ==> ids[i] in d.cells) && DataOf(d.cells, ids) == packets
  {
    hide Chain;
  }

  /** On every run, for every behaviour of callers, controller and backend: the queue, its credits and its history are
      those that the steps describe; counts equal holders and no held packet is missing; nothing waits while there is
      a credit; each connection's packets leave in the order they were queued, and what was queued since its last
      disconnection is what was sent and what waits; the credits that are available, in flight or lost with a refused
      packet are the controller's maximum, modulo 2^16 if the controller completes more than it was given. */
  method Run(accepts: nat -> bool, steps: seq<Step>) returns (d: Device, mine: multiset<Id>)
    ensures d.Valid() && mine <= d.held && d.Now() == AfterSteps(accepts, steps)
    ensures forall b :: b in d.cells ==> 0 < d.cells[b].refs == d.held[b] + Head(d.outgoing)[b] + |LinksTo(d.cells, b)|
    ensures forall b :: b in d.held ==> b in d.cells
    ensures (forall i :: 0 <= i < |d.queue| ==> d.queue[i] in d.cells) && (d.queue == [] || d.available == 0)
    ensures forall h: u16 :: QueuedFor(d.log, h) == SentFor(d.log, h) + Only(d.Waiting(), h)
    ensures
      var t := Replay(d.log);
      && (d.available + t.flying + t.failed - d.limit) % 0x1_0000 == 0
      && (t.honest ==> t.flying >= 0 && d.available + t.flying + t.failed == d.limit)
  {
    hide LinksTo, Balanced, Chain, NoneDying, Replay, QueuedFor, SentFor, Only, AfterSteps, Stepped, Others;
    d := new Device(accepts);
    mine := multiset{};
    NoSteps(accepts, steps);
    for i := 0 to |steps|
      invariant d.Valid() && mine <= d.held && fresh(d) && d.accepts == accepts
      invariant d.Now() == AfterSteps(accepts, steps[..i])
    {
      OneMoreStep(accepts, steps, i);
      mine := Perform(d, mine, steps[i]);
    }
    AllSteps(steps);
    d.InEveryState(0);
    forall h: u16
      ensures QueuedFor(d.log, h) == SentFor(d.log, h) + Only(d.Waiting(), h)
    {
      d.InEveryState(h);
    }
  }

  // ----- messages one after the other -----

  function Credits(d: Device): (n: nat)
    reads d
    ensures n == d.available
  {
    d.available
  }

  /** Messages handed over with nothing in between that brings credits back: each result is a send in the sense of
      AclCredits, and if there are more messages than credits, one of the results is 0. */
  method SendRow(d: Device, messages: seq<seq<seq<byte>>>) returns (rcs: seq<int>, ghost credits: seq<nat>)
    requires d.Valid() && forall i :: 0 <= i < |messages| ==> messages[i] != []
    modifies d
    ensures d.Valid() && |rcs| == |messages| && |credits| == |messages| + 1
    ensures credits[0] == old(d.available) && credits[|messages|] == d.available
    ensures forall i :: 0 <= i < |rcs| ==> AclCredits.IsSend(credits[i], rcs[i], credits[i + 1])
    ensures |messages| > old(d.available) ==> exists i :: 0 <= i <= old(d.available) && rcs[i] == 0
  {
    hide *;
    rcs, credits := [], [Credits(d)];
    while |rcs| < |messages|
      invariant d.Valid() && |rcs| <= |messages| && |credits| == |rcs| + 1
      invariant credits[0] == old(d.available) && credits[|rcs|] == d.available
      invariant forall i :: 0 <= i < |rcs| ==> AclCredits.IsSend(credits[i], rcs[i], credits[i + 1])
    {
      var rc := SendOne(d, messages[|rcs|]);
      rcs, credits := rcs + [rc], credits + [Credits(d)];
    }
    if |messages| > old(d.available) {
      SomeZero(rcs, credits, 0);
    }
  }

  method SendOne(d: Device, packets: seq<seq<byte>>) returns (rc: int)
    requires d.Valid() && packets != []
    modifies d
    ensures d.Valid() && AclCredits.IsSend(old(d.available), rc, d.available)
  {
    hide *;
    var head;
    ghost var ids;
    head, ids := Build(d, packets);
    HeadThere(d, old(d.held), head.value);
    BuiltCanQueue(d, head.value, ids, packets);
    rc := d.SendMessage(head.value, ids);
  }

  lemma {:induction false} SomeZero(rcs: seq<int>, credits: seq<nat>, first: nat)
    requires |credits| == |rcs| + 1 && first < |rcs| && |rcs| - first > credits[first]
    requires forall i :: 0 <= i < |rcs| ==> AclCredits.IsSend(credits[i], rcs[i], credits[i + 1])
    ensures exists i :: first <= i <= first + credits[first] && i < |rcs| && rcs[i] == 0
    decreases |rcs| - first
  {
    assert AclCredits.IsSend(credits[first], rcs[first], credits[first + 1]);
    if rcs[first] != 0 {
      SomeZero(rcs, credits, first + 1);
    }
  }

  const REFUSE_FIRST: nat -> bool := n => n != 0

  lemma {:induction false} Starved(p: seq<byte>, q: seq<byte>)
    ensures
      var one := Stepped(REFUSE_FIRST, Plain([], UNSET, 0, []), BufferSize(1));
      var two := Stepped(REFUSE_FIRST, one, Send([p], false));
      var log := [Queued(p), Sent(p, false), Queued(q)];
      && Stepped(REFUSE_FIRST, two, Send([q], false)) == Plain([q], 0, 1, log)
      && Replay(log).flying == 0
  {
    var one := Plain([], 1, 0, []);
    assert Stepped(REFUSE_FIRST, Plain([], UNSET, 0, []), BufferSize(1)) == one;
    assert Enqueued(one, [p]) == Plain([p], 1, 0, [Queued(p)]);
    assert Answers(REFUSE_FIRST, 0, 1) == [false];
    assert Sending([p], [false]) == [Sent(p, false)];
    var two := Plain([], 0, 1, [Queued(p), Sent(p, false)]);
    assert Drained(REFUSE_FIRST, Plain([p], 1, 0, [Queued(p)])) == two by {
      assert [p][..1] == [p];
    }
    assert Enqueued(two, [q]) == Plain([q], 0, 1, [Queued(p), Sent(p, false), Queued(q)]);
    assert Drained(REFUSE_FIRST, Enqueued(two, [q])) == Enqueued(two, [q]) by {
      assert Sending([], []) == [];
    }
    ReplaySnoc([], Queued(p));
    ReplaySnoc([Queued(p)], Sent(p, false));
    ReplaySnoc([Queued(p), Sent(p, false)], Queued(q));
    assert [] + [Queued(p)] == [Queued(p)];
    assert [Queued(p)] + [Sent(p, false)] == [Queued(p), Sent(p, false)];
    assert [Queued(p), Sent(p, false)] + [Queued(q)] == [Queued(p), Sent(p, false), Queued(q)];
  }

  /** A controller of one packet that refuses the first leaves no credit and nothing in flight that could bring one
      back: the second packet waits for ever. */
  method FailedSendStarves(p: seq<byte>, q: seq<byte>) returns (d: Device)
    ensures d.Valid() && d.Waiting() == [q] && d.available == 0
    ensures d.log == [Queued(p), Sent(p, false), Queued(q)] && Replay(d.log).flying == 0
  {
    hide *;
    d := new Device(REFUSE_FIRST);
    var mine := Perform(d, multiset{}, BufferSize(1));
    mine := Perform(d, mine, Send([p], false));
    mine := Perform(d, mine, Send([q], false));
    Starved(p, q);
    d.Parts();
  }

  // ----- the end of a connection -----

  lemma NothingLeaves(accepts: nat -> bool, s: Plain, packets: seq<seq<byte>>)
    requires s.available == 0
    ensures
      var after := Stepped(accepts, s, Send(packets, false));
      after.waiting == s.waiting + packets && after.available == 0
  {
    var more := Enqueued(s, packets);
    assert Leaving(more) == 0 && more.waiting[0..] == more.waiting;
    assert s.waiting + [] == s.waiting;
  }

  lemma {:induction false} OneMoreMail(mails: seq<Mail>, m: Mail)
    requires IsMail(m) && forall i :: 0 <= i < |mails| ==> IsMail(mails[i])
    ensures FramesOfAll(mails + [m]) == FramesOfAll(mails) + Frames(m.h, m.boundary, m.broadcast, m.payload, m.cap)
  {
    hide Frames;
    if mails == [] {
      assert [m][1..] == [] && mails + [m] == [m];
      assert FramesOfAll([m]) == Frames(m.h, m.boundary, m.broadcast, m.payload, m.cap) + [];
    } else {
      OneMoreMail(mails[1..], m);
      assert (mails + [m])[1..] == mails[1..] + [m];
    }
  }

  /** Messages for any connections wait in any order, as there is no credit, when one of the connections ends: what is
      left waiting are the frames of the other connections' messages, in order. */
  method PurgeAmongMessages(d: Device, mails: seq<Mail>, h: handle)
    requires d.Valid() && d.queue == [] && d.available == 0
    requires forall i :: 0 <= i < |mails| ==> IsMail(mails[i])
    modifies d
    ensures d.Valid() && d.available == 0 && d.Now().waiting == FramesOfAll(ForOthers(mails, h))
  {
    hide *;
    NothingWaits(d);
    var i := 0;
    assert mails[..0] == [];
    while i < |mails|
      invariant i <= |mails| && d.Valid() && d.Now().available == 0
      invariant d.Now().waiting == FramesOfAll(mails[..i])
    {
      var m := mails[i];
      MailIs(m);
      var packets := Frames(m.h, m.boundary, m.broadcast, m.payload, m.cap);
      NothingLeaves(d.accepts, d.Now(), packets);
      NothingMine(d);
      var _ := Perform(d, multiset{}, Send(packets, false));
      OneMoreMail(mails[..i], m);
      assert mails[..i + 1] == mails[..i] + [m];
      i := i + 1;
    }
    assert mails[..i] == mails;
    d.Parts();
    PurgeOfMessages(mails, h);
    ghost var s := d.Now();
    d.Disconnected(h);
    PurgedWaiting(s, h);
    d.Parts();
  }

  lemma MailIs(m: Mail)
    requires IsMail(m)
    ensures m.boundary < 4 && m.broadcast < 4 && m.cap > 0
  {
  }

  lemma NothingMine(d: Device)
    ensures multiset{} <= d.held
  {
  }

  lemma NothingWaits(d: Device)
    requires d.Valid() && d.queue == []
    ensures d.Now().waiting == FramesOfAll([]) && d.Now().available == d.available
  {
  }

  lemma PurgedWaiting(s: Plain, h: u16)
    ensures PurgedOf(s, h).waiting == Without(s.waiting, h) && PurgedOf(s, h).available == s.available
  {
  }
}
