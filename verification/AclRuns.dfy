/** Runs of several connections over one memory: messages are sent, completed, purged and received in any order
    (acl.c:24-164; hci_dev.c:140-240). */
module AclRuns {
  import opened Prelude
  import opened Bytes
  import opened AclFrames
  import opened PacketRefs
  import opened HciQueue
  import opened AclReceiver
  import HciRuns

  /** What the queue does, with the end of a connection among it, and what comes in. */
  datatype Step =
    | Queue(step: HciRuns.Step)
    | Opens(h: handle, limits: map<u16, u16>)
    | Receives(p: seq<byte>)

  // ----- what the connections have been sent -----

  /** A connection from the controller's side: its handle while it is open, the channels it knows with their limits,
      and the packets it was sent. */
  datatype Peer = Peer(handle: Option<handle>, limits: map<u16, u16>, got: seq<seq<byte>>)

  /** The connection with that handle. */
  function Find(peers: seq<Peer>, h: handle): (k: Option<nat>)
    ensures k.Some? ==> k.value < |peers| && peers[k.value].handle == Some(h)
  {
    if peers == [] then None
    else if peers[|peers| - 1].handle == Some(h) then Some(|peers| - 1)
    else Find(peers[..|peers| - 1], h)
  }

  function PeersAfter(peers: seq<Peer>, step: Step): seq<Peer> {
    match step
    case Opens(h, limits) => if Find(peers, h).Some? then peers else peers + [Peer(Some(h), limits, [])]
    case Receives(p) =>
      if IsPacket(p) && Find(peers, HandleOf(p)).Some? then
        var k := Find(peers, HandleOf(p)).value;
        peers[k := peers[k].(got := peers[k].got + [p])]
      else peers
    case Queue(step) =>
      if step.Disconnect? && step.h < 0x1000 && Find(peers, step.h).Some? then
        var k := Find(peers, step.h).value;
        peers[k := peers[k].(handle := None)]
      else peers
  }

  function AllPeers(steps: seq<Step>): seq<Peer> {
    if steps == [] then [] else PeersAfter(AllPeers(steps[..|steps| - 1]), steps[|steps| - 1])
  }

  /** What the queue is asked to do. */
  function QueueSteps(steps: seq<Step>): seq<HciRuns.Step> {
    if steps == [] then []
    else
      var before, last := QueueSteps(steps[..|steps| - 1]), steps[|steps| - 1];
      if last.Queue? then before + [last.step] else before
  }

  /** One more step. */
  lemma Unfolded(accepts: nat -> bool, steps: seq<Step>, i: nat)
    requires i < |steps|
    ensures AllPeers(steps[..i + 1]) == PeersAfter(AllPeers(steps[..i]), steps[i])
    ensures
      var before, after := HciRuns.AfterSteps(accepts, QueueSteps(steps[..i])),
                           HciRuns.AfterSteps(accepts, QueueSteps(steps[..i + 1]));
      after == if steps[i].Queue? then HciRuns.Stepped(accepts, before, steps[i].step) else before
  {
    hide HciRuns.Stepped, PeersAfter;
    assert steps[..i + 1][..i] == steps[..i];
    var before := QueueSteps(steps[..i]);
    if steps[i].Queue? {
      assert (before + [steps[i].step])[..|before|] == before;
    }
  }

  // ----- what the connections have in memory -----

  /** The list of a connection and its counters. */
  datatype Snap = Snap(head: Option<Id>, ids: seq<Id>, size: u16, expected: u16, delivered: seq<seq<byte>>)

  ghost function SnapOf(c: Connection): Snap
    reads c
  {
    Snap(c.fragmented, c.ids, c.fragmentedSize, c.reassembledSize, c.delivered)
  }

  /** A connection is where its own packets bring it. */
  ghost predicate InStep(cells: Cells, s: Snap, peer: Peer) {
    && (forall i :: 0 <= i < |s.ids| ==> s.ids[i] in cells)
    && Packets(peer.got)
    && (Rx(DataOf(cells, s.ids), s.size, s.expected), s.delivered) == Run(peer.limits, Rx([], 0, 0), peer.got)
  }

  ghost function Heads(snaps: seq<Snap>): multiset<Id> {
    if snaps == [] then multiset{} else Heads(snaps[..|snaps| - 1]) + Head(snaps[|snaps| - 1].head)
  }

  predicate Apart(a: seq<Id>, b: seq<Id>) {
    forall i :: 0 <= i < |a| ==> a[i] !in b
  }

  ghost predicate AllListed(cells: Cells, held: multiset<Id>, queue: seq<Id>, snaps: seq<Snap>) {
    forall i :: 0 <= i < |snaps| ==> Listed(cells, held, queue, snaps[i].head, snaps[i].ids)
  }

  ghost predicate AllApart(snaps: seq<Snap>) {
    forall i, j :: 0 <= i < |snaps| && 0 <= j < |snaps| && i != j ==> Apart(snaps[i].ids, snaps[j].ids)
  }

  ghost predicate AllInStep(cells: Cells, snaps: seq<Snap>, peers: seq<Peer>) {
    |snaps| == |peers| && forall i :: 0 <= i < |snaps| ==> InStep(cells, snaps[i], peers[i])
  }

  /** The lists of the connections are lists, apart from each other and from the queue, every head is held beside
      what callers hold, and each connection is where its own packets bring it. */
  ghost predicate Sound(cells: Cells, held: multiset<Id>, queue: seq<Id>, snaps: seq<Snap>, peers: seq<Peer>,
                        mine: multiset<Id>) {
    && AllListed(cells, held, queue, snaps) && AllApart(snaps) && AllInStep(cells, snaps, peers)
    && mine + Heads(snaps) <= held
  }

  lemma {:induction false} HeadAmong(snaps: seq<Snap>, k: nat)
    requires k < |snaps|
    ensures Head(snaps[k].head) <= Heads(snaps)
  {
    if k < |snaps| - 1 {
      HeadAmong(snaps[..|snaps| - 1], k);
    }
  }

  /** One connection gets another list. */
  lemma {:induction false} HeadsUpdate(snaps: seq<Snap>, k: nat, s: Snap)
    requires k < |snaps|
    ensures Heads(snaps[k := s]) + Head(snaps[k].head) == Heads(snaps) + Head(s.head)
  {
    hide Head;
    var n := |snaps| - 1;
    if k < n {
      HeadsUpdate(snaps[..n], k, s);
      assert snaps[k := s][..n] == snaps[..n][k := s];
      OneBeside(Heads(snaps[..n][k := s]), Head(snaps[k].head), Heads(snaps[..n]), Head(s.head), Head(snaps[n].head));
    } else {
      assert snaps[k := s][..n] == snaps[..n];
    }
  }

  lemma OneBeside(a: multiset<Id>, b: multiset<Id>, c: multiset<Id>, d: multiset<Id>, last: multiset<Id>)
    requires a + b == c + d
    ensures a + last + b == c + last + d
  {
    forall q
      ensures (a + last + b)[q] == (c + last + d)[q]
    {
      assert (a + b)[q] == (c + d)[q];
    }
  }

  // ----- what steps of the queue leave alone -----

  /** A list that others do not touch, and whose head is still held, stays a list with the same packets. */
  lemma ListSurvives(before: Cells, held: multiset<Id>, queue: seq<Id>, after: Cells, heldAfter: multiset<Id>,
                     queueAfter: seq<Id>, touched: seq<Id>, all: multiset<Id>, head: Option<Id>, ids: seq<Id>)
    requires Listed(before, held, queue, head, ids) && LeavesAlone(touched, before, after) && Apart(ids, touched)
    requires Balanced(after, all) && NoneDying(after) && Head(head) <= all && Head(head) <= heldAfter
    requires forall i :: 0 <= i < |queueAfter| ==> queueAfter[i] in queue || queueAfter[i] !in before
    ensures Listed(after, heldAfter, queueAfter, head, ids)
    ensures forall i :: 0 <= i < |ids| ==> ids[i] in before && ids[i] in after
    ensures DataOf(after, ids) == DataOf(before, ids)
  {
    hide Balanced, NoneDying, LinksTo;
    ChainKept(before, after, all, head, ids, touched);
    HeadIsFirst(before, head, ids);
    HeadIsFirst(after, head, ids);
    hide Chain;
    forall i | 0 <= i < |ids|
      ensures ids[i] !in queueAfter && |after[ids[i]].data| >= ACL_HEADER
    {
      assert DataOf(after, ids)[i] == DataOf(before, ids)[i];
    }
  }

  lemma InStepStill(before: Cells, after: Cells, s: Snap, peer: Peer)
    requires InStep(before, s, peer) && forall i :: 0 <= i < |s.ids| ==> s.ids[i] in before && s.ids[i] in after
    requires DataOf(after, s.ids) == DataOf(before, s.ids)
    ensures InStep(after, s, peer)
  {
    hide Run, Packets;
  }

  /** What a caller does, the controller and the backend leaves every connection as it is. */
  lemma OthersKeepSound(before: Cells, held: multiset<Id>, queue: seq<Id>, snaps: seq<Snap>, peers: seq<Peer>,
                        mine: multiset<Id>, after: Cells, heldAfter: multiset<Id>, queueAfter: seq<Id>,
                        outgoing: Option<Id>, left: multiset<Id>)
    requires Sound(before, held, queue, snaps, peers, mine)
    requires HciRuns.Others(before, queue, after, queueAfter) && HciRuns.OthersHold(held, mine, heldAfter, left)
    requires Balanced(after, heldAfter + Head(outgoing)) && NoneDying(after)
    ensures Sound(after, heldAfter, queueAfter, snaps, peers, left)
  {
    hide Balanced, NoneDying, LinksTo, InStep, Listed, LeavesAlone, Chain;
    forall i | 0 <= i < |snaps|
      ensures Listed(after, heldAfter, queueAfter, snaps[i].head, snaps[i].ids) && InStep(after, snaps[i], peers[i])
    {
      HeadAmong(snaps, i);
      StillHeld(held, mine, Heads(snaps), Head(snaps[i].head), heldAfter, left);
      ApartFromQueue(before, held, queue, snaps[i].head, snaps[i].ids);
      ListSurvives(before, held, queue, after, heldAfter, queueAfter, queue, heldAfter + Head(outgoing),
                   snaps[i].head, snaps[i].ids);
      InStepStill(before, after, snaps[i], peers[i]);
    }
    StillHeld(held, mine, Heads(snaps), Heads(snaps), heldAfter, left);
  }

  lemma ApartFromQueue(cells: Cells, held: multiset<Id>, queue: seq<Id>, head: Option<Id>, ids: seq<Id>)
    requires Listed(cells, held, queue, head, ids)
    ensures Apart(ids, queue)
  {
  }

  lemma StillHeld(held: multiset<Id>, mine: multiset<Id>, heads: multiset<Id>, one: multiset<Id>,
                  after: multiset<Id>, left: multiset<Id>)
    requires mine + heads <= held && one <= heads && held - mine + left <= after
    ensures left + heads <= after && one <= after
  {
  }

  // ----- what a packet does to its connection -----

  /** The list of one connection is settled by a packet, and the others stay as they are. */
  lemma DataKeepsSound(before: Cells, held: multiset<Id>, queue: seq<Id>, snaps: seq<Snap>, peers: seq<Peer>,
                       mine: multiset<Id>, k: nat, s: Snap, peer: Peer, b: Id, after: Cells, heldAfter: multiset<Id>,
                       outgoing: Option<Id>, kept: multiset<Id>)
    requires Sound(before, held, queue, snaps, peers, mine) && k < |snaps|
    requires Settled(snaps[k].ids, before, held, snaps[k].head, after, heldAfter, s.head, kept)
    requires Listed(after, heldAfter, queue, s.head, s.ids) && InStep(after, s, peer)
    requires forall q :: q in s.ids ==> q in snaps[k].ids || q == b
    requires forall i :: 0 <= i < |snaps| ==> b !in snaps[i].ids
    requires Balanced(after, heldAfter + Head(outgoing)) && NoneDying(after)
    ensures Sound(after, heldAfter, queue, snaps[k := s], peers[k := peer], mine + kept)
  {
    hide Balanced, NoneDying, LinksTo, InStep, Listed, LeavesAlone, Chain, Settled, Head;
    var now := snaps[k := s];
    HeadAmong(snaps, k);
    HeadsUpdate(snaps, k, s);
    SettledIs(snaps[k].ids, before, held, snaps[k].head, after, heldAfter, s.head, kept);
    HeadsMove(held, mine, Heads(snaps), Head(snaps[k].head), Heads(now), Head(s.head), heldAfter, kept);
    forall i | 0 <= i < |snaps| && i != k
      ensures Listed(after, heldAfter, queue, snaps[i].head, snaps[i].ids) && InStep(after, snaps[i], peers[i])
    {
      HeadAmong(now, i);
      ListSurvives(before, held, queue, after, heldAfter, queue, snaps[k].ids, heldAfter + Head(outgoing),
                   snaps[i].head, snaps[i].ids);
      InStepStill(before, after, snaps[i], peers[i]);
    }
    StayApart(snaps, k, s, b);
  }

  lemma SettledIs(ids0: seq<Id>, before: Cells, held: multiset<Id>, f0: Option<Id>, after: Cells,
                  heldAfter: multiset<Id>, f: Option<Id>, kept: multiset<Id>)
    requires Settled(ids0, before, held, f0, after, heldAfter, f, kept)
    ensures LeavesAlone(ids0, before, after) && Head(f0) <= held && heldAfter == held - Head(f0) + Head(f) + kept
  {
  }

  lemma HeadsMove(held: multiset<Id>, mine: multiset<Id>, heads: multiset<Id>, one: multiset<Id>, now: multiset<Id>,
                  other: multiset<Id>, after: multiset<Id>, kept: multiset<Id>)
    requires mine + heads <= held && one <= heads && now + one == heads + other
    requires after == held - one + other + kept
    ensures mine + kept + now <= after && now <= after
  {
    forall q
      ensures (mine + kept + now)[q] <= after[q]
    {
      assert (now + one)[q] == (heads + other)[q];
      assert (mine + heads)[q] <= held[q] && one[q] <= heads[q];
    }
  }

  lemma StayApart(snaps: seq<Snap>, k: nat, s: Snap, b: Id)
    requires AllApart(snaps) && k < |snaps| && forall q :: q in s.ids ==> q in snaps[k].ids || q == b
    requires forall i :: 0 <= i < |snaps| ==> b !in snaps[i].ids
    ensures AllApart(snaps[k := s])
  {
    var now := snaps[k := s];
    forall i, j | 0 <= i < |now| && 0 <= j < |now| && i != j
      ensures Apart(now[i].ids, now[j].ids)
    {
      assert Apart(snaps[i].ids, snaps[j].ids) && Apart(snaps[j].ids, snaps[i].ids);
      if j == k {
        forall n | 0 <= n < |now[i].ids|
          ensures now[i].ids[n] !in s.ids
        {
          assert now[i].ids[n] in snaps[i].ids;
        }
      } else if i == k {
        forall n | 0 <= n < |s.ids|
          ensures s.ids[n] !in now[j].ids
        {
          assert s.ids[n] in s.ids;
        }
      }
    }
  }

  /** One more packet of a connection. */
  lemma OneMoreReceived(cells: Cells, s: Snap, peer: Peer, p: seq<byte>, after: Cells, s': Snap)
    requires InStep(cells, s, peer) && IsPacket(p) && Headed(Rx(DataOf(cells, s.ids), s.size, s.expected))
    requires forall i :: 0 <= i < |s'.ids| ==> s'.ids[i] in after
    requires
      var r := Receive(peer.limits, Rx(DataOf(cells, s.ids), s.size, s.expected), p);
      Rx(DataOf(after, s'.ids), s'.size, s'.expected) == r.0 && s'.delivered == s.delivered + r.1
    ensures InStep(after, s', peer.(got := peer.got + [p]))
  {
    RunConcat(peer.limits, Rx([], 0, 0), peer.got, [p]);
    OnePacketRun(peer.limits, Rx(DataOf(cells, s.ids), s.size, s.expected), p);
    hide Run, Receive, Packets;
  }

  // ----- the runs -----

  ghost predicate Present(d: Device, conns: seq<Connection>, snaps: seq<Snap>)
    reads conns
  {
    && |conns| == |snaps|
    && (forall i :: 0 <= i < |conns| ==> conns[i].dev == d && SnapOf(conns[i]) == snaps[i])
    && (forall i, j :: 0 <= i < j < |conns| ==> conns[i] != conns[j])
  }

  ghost predicate World(d: Device, conns: seq<Connection>, snaps: seq<Snap>, peers: seq<Peer>, mine: multiset<Id>)
    reads d, conns
  {
    && d.Valid() && Present(d, conns, snaps)
    && Sound(d.cells, d.held, d.queue, snaps, peers, mine)
  }

  lemma WorldParts(d: Device, conns: seq<Connection>, snaps: seq<Snap>, peers: seq<Peer>, mine: multiset<Id>)
    requires World(d, conns, snaps, peers, mine)
    ensures d.Valid() && Sound(d.cells, d.held, d.queue, snaps, peers, mine) && mine <= d.held
    ensures Present(d, conns, snaps) && |conns| == |snaps| == |peers|
  {
  }

  lemma DeviceParts(d: Device)
    requires d.Valid()
    ensures Balanced(d.cells, d.held + Head(d.outgoing)) && NoneDying(d.cells)
  {
  }

  lemma MakeWorld(d: Device, conns: seq<Connection>, snaps: seq<Snap>, peers: seq<Peer>, mine: multiset<Id>)
    requires d.Valid() && Sound(d.cells, d.held, d.queue, snaps, peers, mine) && Present(d, conns, snaps)
    ensures World(d, conns, snaps, peers, mine)
  {
  }

  /** A handle tells whose packets come in, and nothing about what is there. */
  lemma HandlesDoNotMatter(cells: Cells, held: multiset<Id>, queue: seq<Id>, snaps: seq<Snap>, peers: seq<Peer>,
                           mine: multiset<Id>, step: HciRuns.Step)
    requires Sound(cells, held, queue, snaps, peers, mine)
    ensures Sound(cells, held, queue, snaps, PeersAfter(peers, Queue(step)), mine)
  {
    hide Run, Packets, Listed, Heads, Apart, DataOf;
    var after := PeersAfter(peers, Queue(step));
    forall i | 0 <= i < |snaps|
      ensures InStep(cells, snaps[i], after[i])
    {
      assert InStep(cells, snaps[i], peers[i]);
    }
  }

  /** A step of the queue. */
  method PerformQueue(d: Device, conns: seq<Connection>, ghost snaps: seq<Snap>, peers: seq<Peer>,
                      mine: multiset<Id>, step: HciRuns.Step)
    returns (left: multiset<Id>, closed: seq<Peer>)
    requires World(d, conns, snaps, peers, mine)
    modifies d
    ensures World(d, conns, snaps, closed, left) && closed == PeersAfter(peers, Queue(step))
    ensures d.Now() == HciRuns.Stepped(d.accepts, old(d.Now()), step)
  {
    hide *;
    WorldParts(d, conns, snaps, peers, mine);
    ghost var cells, held, queue := d.cells, d.held, d.queue;
    left := HciRuns.Perform(d, mine, step);
    DeviceParts(d);
    OthersKeepSound(cells, held, queue, snaps, peers, mine, d.cells, d.held, d.queue, d.outgoing, left);
    closed := PeersAfter(peers, Queue(step));
    HandlesDoNotMatter(d.cells, d.held, d.queue, snaps, peers, left, step);
    MakeWorld(d, conns, snaps, closed, left);
  }

  /** A new connection, unless there is one with that handle. */
  method Open(d: Device, conns: seq<Connection>, ghost snaps: seq<Snap>, peers: seq<Peer>, ghost mine: multiset<Id>,
              h: handle, limits: map<u16, u16>)
    returns (more: seq<Connection>, ghost moreSnaps: seq<Snap>, morePeers: seq<Peer>)
    requires World(d, conns, snaps, peers, mine)
    ensures World(d, more, moreSnaps, morePeers, mine) && morePeers == PeersAfter(peers, Opens(h, limits))
    ensures forall k :: 0 <= k < |more| ==> more[k] in conns || fresh(more[k])
  {
    hide *;
    more, moreSnaps, morePeers := conns, snaps, PeersAfter(peers, Opens(h, limits));
    OpensOne(peers, h, limits);
    if Find(peers, h) == None {
      WorldParts(d, conns, snaps, peers, mine);
      var c := new Connection(d);
      IdleSnap(c);
      more, moreSnaps := conns + [c], snaps + [SnapOf(c)];
      OneMorePresent(d, conns, snaps, c);
      OneMoreSound(d.cells, d.held, d.queue, snaps, peers, mine, SnapOf(c), Peer(Some(h), limits, []));
      MakeWorld(d, more, moreSnaps, morePeers, mine);
    }
  }

  lemma OpensOne(peers: seq<Peer>, h: handle, limits: map<u16, u16>)
    ensures
      PeersAfter(peers, Opens(h, limits)) ==
        if Find(peers, h) == None then peers + [Peer(Some(h), limits, [])] else peers
  {
  }

  lemma IdleSnap(c: Connection)
    requires c.Valid() && c.State() == Rx([], 0, 0) && c.delivered == []
    ensures SnapOf(c) == Snap(None, [], 0, 0, [])
  {
    c.Parts();
  }

  lemma OneMorePresent(d: Device, conns: seq<Connection>, snaps: seq<Snap>, c: Connection)
    requires Present(d, conns, snaps) && c.dev == d && c !in conns
    ensures Present(d, conns + [c], snaps + [SnapOf(c)])
  {
  }

  lemma NothingReceived(cells: Cells, peer: Peer)
    requires peer.got == []
    ensures InStep(cells, Snap(None, [], 0, 0, []), peer)
  {
  }

  lemma OneMoreSound(cells: Cells, held: multiset<Id>, queue: seq<Id>, snaps: seq<Snap>, peers: seq<Peer>,
                     mine: multiset<Id>, s: Snap, peer: Peer)
    requires Sound(cells, held, queue, snaps, peers, mine) && s == Snap(None, [], 0, 0, []) && peer.got == []
    ensures Sound(cells, held, queue, snaps + [s], peers + [peer], mine)
  {
    hide Listed, InStep, Heads, Apart;
    NothingListed(cells, held, queue);
    NothingReceived(cells, peer);
    NothingMoreHeld(snaps, s);
    OneMoreApart(snaps, s);
  }

  lemma NothingMoreHeld(snaps: seq<Snap>, s: Snap)
    requires s.head == None
    ensures Heads(snaps + [s]) == Heads(snaps)
  {
    assert (snaps + [s])[..|snaps|] == snaps;
  }

  lemma OneMoreApart(snaps: seq<Snap>, s: Snap)
    requires AllApart(snaps) && s.ids == []
    ensures AllApart(snaps + [s])
  {
    var more := snaps + [s];
    forall i, j | 0 <= i < |more| && 0 <= j < |more| && i != j
      ensures Apart(more[i].ids, more[j].ids)
    {
      if i < |snaps| && j < |snaps| {
        assert Apart(snaps[i].ids, snaps[j].ids);
      }
    }
  }

  /** The packet that the driver has put into memory belongs to nobody yet. */
  lemma NewIsLoose(cells: Cells, held: multiset<Id>, queue: seq<Id>, snaps: seq<Snap>, peers: seq<Peer>,
                   mine: multiset<Id>, b: Id, p: seq<byte>)
    requires Sound(cells, held, queue, snaps, peers, mine) && b !in cells && |p| >= ACL_HEADER
    requires forall i :: 0 <= i < |queue| ==> queue[i] in cells
    ensures HciRuns.Others(cells, queue, cells[b := Cell(1, None, p)], queue)
    ensures HciRuns.OthersHold(held, mine, held + multiset{b}, mine + multiset{b})
    ensures forall i :: 0 <= i < |snaps| ==>
      b !in snaps[i].ids && Loose(cells[b := Cell(1, None, p)], queue, snaps[i].ids, b)
  {
    hide Heads, InStep;
    forall i | 0 <= i < |snaps|
      ensures b !in snaps[i].ids
    {
      assert Listed(cells, held, queue, snaps[i].head, snaps[i].ids);
    }
  }

  lemma FindsOne(peers: seq<Peer>, p: seq<byte>)
    requires IsPacket(p)
    ensures |p| >= ACL_HEADER
    ensures
      PeersAfter(peers, Receives(p)) ==
        match Find(peers, HandleOf(p))
        case None => peers
        case Some(k) => peers[k := peers[k].(got := peers[k].got + [p])]
  {
  }

  /** What the connection is, taken apart. */
  lemma ConnectionIs(d: Device, conns: seq<Connection>, snaps: seq<Snap>, peers: seq<Peer>, mine: multiset<Id>, k: nat)
    requires d.Valid() && Present(d, conns, snaps) && Sound(d.cells, d.held, d.queue, snaps, peers, mine)
    requires k < |conns|
    ensures conns[k].dev == d && conns[k].Valid() && SnapOf(conns[k]) == snaps[k] && InStep(d.cells, snaps[k], peers[k])
    ensures conns[k].State() == Rx(DataOf(d.cells, snaps[k].ids), snaps[k].size, snaps[k].expected)
    ensures conns[k].ids == snaps[k].ids && conns[k].delivered == snaps[k].delivered &&
      conns[k].fragmented == snaps[k].head
  {
    hide Listed, Run, Packets, DataOf, Heads, Apart;
    assert Listed(d.cells, d.held, d.queue, snaps[k].head, snaps[k].ids) && InStep(d.cells, snaps[k], peers[k]);
    conns[k].Whole();
    conns[k].Parts();
  }

  lemma ConnectionLeft(c: Connection)
    requires c.Valid()
    ensures var s := SnapOf(c);
      && s.ids == c.ids && s.head == c.fragmented && s.delivered == c.delivered
      && (forall i :: 0 <= i < |s.ids| ==> s.ids[i] in c.dev.cells)
      && Rx(DataOf(c.dev.cells, s.ids), s.size, s.expected) == c.State()
      && Listed(c.dev.cells, c.dev.held, c.dev.queue, s.head, s.ids) && c.dev.Valid() && Headed(c.State())
  {
    c.Parts();
    hide Listed, DataOf;
  }

  /** One connection takes the packet, and the others are not touched. */
  method Give(d: Device, conns: seq<Connection>, ghost snaps: seq<Snap>, k: nat, limits: map<u16, u16>, b: Id)
    returns (kept: multiset<Id>)
    requires d.Valid() && Present(d, conns, snaps) && k < |conns| && conns[k].Valid()
    requires Loose(d.cells, d.queue, conns[k].ids, b) && b in d.held && b in d.cells && IsPacket(d.cells[b].data)
    modifies conns[k], d`cells, d`held
    ensures d.Valid() && conns[k].Valid() && Present(d, conns, snaps[k := SnapOf(conns[k])])
    ensures
      var r := Receive(limits, old(conns[k].State()), old(d.cells[b].data));
      conns[k].State() == r.0 && conns[k].delivered == old(conns[k].delivered) + r.1
    ensures Settled(old(conns[k].ids), old(d.cells), old(d.held), old(conns[k].fragmented), d.cells, d.held,
                    conns[k].fragmented, kept)
    ensures (forall q :: q in conns[k].ids ==> q in old(conns[k].ids) || q == b) && d.Now() == old(d.Now())
  {
    hide Listed, Balanced, LinksTo, NoneDying, Chain, Receive, Settled, Loose, DataOf, Unheld, IsPacket;
    kept := conns[k].OnData(limits, b);
    conns[k].Parts();
  }

  /** The packet b, which somebody holds beside all others, goes to connection k. */
  method HandOver(d: Device, conns: seq<Connection>, ghost snaps: seq<Snap>, peers: seq<Peer>, mine: multiset<Id>,
                  k: nat, b: Id, ghost p: seq<byte>)
    returns (left: multiset<Id>, ghost nextSnaps: seq<Snap>)
    requires d.Valid() && Present(d, conns, snaps) && Sound(d.cells, d.held, d.queue, snaps, peers, mine)
    requires k < |peers| && b in mine && b in d.cells && d.cells[b].data == p && IsPacket(p)
    requires forall i :: 0 <= i < |snaps| ==> b !in snaps[i].ids && Loose(d.cells, d.queue, snaps[i].ids, b)
    modifies d, conns
    ensures d.Valid() && Present(d, conns, nextSnaps) && mine <= left
    ensures Sound(d.cells, d.held, d.queue, nextSnaps, peers[k := peers[k].(got := peers[k].got + [p])], left)
    ensures d.Now() == old(d.Now())
  {
    hide *;
    SameCount(d, conns, snaps, peers, mine);
    ConnectionIs(d, conns, snaps, peers, mine, k);
    ghost var cells, held, queue, limits := d.cells, d.held, d.queue, peers[k].limits;
    ConnectionLeft(conns[k]);
    var kept := Give(d, conns, snaps, k, peers[k].limits, b);
    ConnectionLeft(conns[k]);
    ghost var s := SnapOf(conns[k]);
    OneMoreReceived(cells, snaps[k], peers[k], p, d.cells, s);
    DeviceParts(d);
    DataKeepsSound(cells, held, queue, snaps, peers, mine, k, s, peers[k].(got := peers[k].got + [p]), b, d.cells,
                   d.held, d.outgoing, kept);
    left, nextSnaps := mine + kept, snaps[k := s];
  }

  lemma SameCount(d: Device, conns: seq<Connection>, snaps: seq<Snap>, peers: seq<Peer>, mine: multiset<Id>)
    requires Present(d, conns, snaps) && Sound(d.cells, d.held, d.queue, snaps, peers, mine)
    ensures |conns| == |snaps| == |peers| && mine <= d.held
  {
    hide AllListed, AllApart, InStep;
  }

  /** The driver puts a packet into memory and holds it. */
  method PutIn(d: Device, ghost snaps: seq<Snap>, ghost peers: seq<Peer>, ghost mine: multiset<Id>, p: seq<byte>)
    returns (b: Id)
    requires d.Valid() && Sound(d.cells, d.held, d.queue, snaps, peers, mine) && |p| >= ACL_HEADER
    modifies d`cells, d`held
    ensures d.Valid() && Sound(d.cells, d.held, d.queue, snaps, peers, mine + multiset{b})
    ensures d.Now() == old(d.Now()) && b in d.cells && d.cells[b].data == p
    ensures forall i :: 0 <= i < |snaps| ==> b !in snaps[i].ids && Loose(d.cells, d.queue, snaps[i].ids, b)
  {
    hide *;
    d.Parts();
    b := HciRuns.FreshAddress(d);
    ghost var cells, held, queue := d.cells, d.held, d.queue;
    NewIsLoose(cells, held, queue, snaps, peers, mine, b, p);
    d.Alloc(b, p);
    DeviceParts(d);
    OthersKeepSound(cells, held, queue, snaps, peers, mine, d.cells, d.held, d.queue, d.outgoing, mine + multiset{b});
  }

  /** The driver gives its packet up. */
  method TakeBack(d: Device, ghost snaps: seq<Snap>, ghost peers: seq<Peer>, mine: multiset<Id>, b: Id)
    returns (left: multiset<Id>)
    requires d.Valid() && Sound(d.cells, d.held, d.queue, snaps, peers, mine)
    requires b in mine && b in d.held && mine <= d.held
    modifies d`cells, d`held
    ensures d.Valid() && Sound(d.cells, d.held, d.queue, snaps, peers, left) && d.Now() == old(d.Now())
  {
    hide *;
    ghost var cells, held := d.cells, d.held;
    d.Release(b);
    HciRuns.FreedForOthers(cells, d.cells, d.queue);
    HciRuns.OneMoreOrLess(held, mine, b);
    DeviceParts(d);
    left := mine - multiset{b};
    OthersKeepSound(cells, held, d.queue, snaps, peers, mine, d.cells, d.held, d.queue, d.outgoing, left);
  }

  /** A packet comes in: the driver puts it into memory, hands it to the connection with its handle, if there is one,
      and gives it up. */
  method PerformReceive(d: Device, conns: seq<Connection>, ghost snaps: seq<Snap>, peers: seq<Peer>,
                        mine: multiset<Id>, p: seq<byte>)
    returns (left: multiset<Id>, ghost nextSnaps: seq<Snap>, nextPeers: seq<Peer>)
    requires World(d, conns, snaps, peers, mine) && IsPacket(p)
    modifies d, conns
    ensures World(d, conns, nextSnaps, nextPeers, left) && nextPeers == PeersAfter(peers, Receives(p))
    ensures d.Now() == old(d.Now())
  {
    hide *;
    WorldParts(d, conns, snaps, peers, mine);
    FindsOne(peers, p);
    var b := PutIn(d, snaps, peers, mine, p);
    left, nextSnaps, nextPeers := mine + multiset{b}, snaps, peers;
    var k := Find(peers, HandleOf(p));
    if k.Some? {
      left, nextSnaps := HandOver(d, conns, snaps, peers, left, k.value, b, p);
      nextPeers := peers[k.value := peers[k.value].(got := peers[k.value].got + [p])];
    }
    SameCount(d, conns, nextSnaps, nextPeers, left);
    StillMine(mine, b, left, d.held);
    left := TakeBack(d, nextSnaps, nextPeers, left, b);
    MakeWorld(d, conns, nextSnaps, nextPeers, left);
  }

  lemma StillMine(mine: multiset<Id>, b: Id, left: multiset<Id>, held: multiset<Id>)
    requires mine + multiset{b} <= left <= held
    ensures b in left && b in held
  {
    assert (mine + multiset{b})[b] <= left[b] <= held[b];
  }

  /** One step. A packet that is too short for the receiver to read its headers is passed over. */
  method Perform(d: Device, conns: seq<Connection>, ghost snaps: seq<Snap>, peers: seq<Peer>, mine: multiset<Id>,
                 step: Step)
    returns (left: multiset<Id>, more: seq<Connection>, ghost nextSnaps: seq<Snap>, nextPeers: seq<Peer>)
    requires World(d, conns, snaps, peers, mine)
    modifies d, conns
    ensures World(d, more, nextSnaps, nextPeers, left) && nextPeers == PeersAfter(peers, step)
    ensures d.Now() == if step.Queue? then HciRuns.Stepped(d.accepts, old(d.Now()), step.step) else old(d.Now())
    ensures forall k :: 0 <= k < |more| ==> more[k] in conns || fresh(more[k])
  {
    hide *;
    WorldParts(d, conns, snaps, peers, mine);
    left, more, nextSnaps, nextPeers := mine, conns, snaps, PeersAfter(peers, step);
    match step
    case Queue(queueStep) => left, nextPeers := PerformQueue(d, conns, snaps, peers, mine, queueStep);
    case Opens(h, limits) => more, nextSnaps, nextPeers := Open(d, conns, snaps, peers, mine, h, limits);
    case Receives(p) =>
      PassesOver(peers, p);
      if IsPacket(p) {
        left, nextSnaps, nextPeers := PerformReceive(d, conns, snaps, peers, mine, p);
      }
  }

  lemma PassesOver(peers: seq<Peer>, p: seq<byte>)
    ensures !IsPacket(p) ==> PeersAfter(peers, Receives(p)) == peers
  {
  }

  /** Connection i is valid, where its own packets bring it, and its list is its own. */
  ghost predicate IsOwn(d: Device, conns: seq<Connection>, peers: seq<Peer>, i: nat)
    requires i < |conns| && i < |peers|
    reads d, conns
  {
    && conns[i].dev == d && conns[i].Valid() && Packets(peers[i].got)
    && (conns[i].State(), conns[i].delivered) == Run(peers[i].limits, Rx([], 0, 0), peers[i].got)
    && forall j :: 0 <= j < |conns| && j != i ==> Apart(conns[i].ids, conns[j].ids)
  }

  /** On every run, for every behaviour of callers, of the controller, of the backend and of the clients: counts equal
      holders and nothing held is missing; every connection ever opened is valid, its list is apart from the queue and
      from all other lists, and what it has gathered and delivered is what the specification says of the packets with
      its handle, whatever was sent, completed, purged or received for others in between; and the queue is where its
      own steps bring it, whatever came in. A connection that was disconnected gets nothing more, and keeps what it
      had gathered. */
  method RunSteps(accepts: nat -> bool, steps: seq<Step>)
    returns (d: Device, conns: seq<Connection>, peers: seq<Peer>, mine: multiset<Id>)
    ensures d.Valid() && mine <= d.held && d.Now() == HciRuns.AfterSteps(accepts, QueueSteps(steps))
    ensures forall b :: b in d.cells ==> 0 < d.cells[b].refs == d.held[b] + Head(d.outgoing)[b] + |LinksTo(d.cells, b)|
    ensures forall b :: b in d.held ==> b in d.cells
    ensures peers == AllPeers(steps) && |conns| == |peers|
    ensures forall i :: 0 <= i < |conns| ==> IsOwn(d, conns, peers, i)
  {
    hide *;
    d := new Device(accepts);
    conns, peers, mine := [], [], multiset{};
    ghost var snaps := [];
    NoWorld(d, accepts, steps);
    for i := 0 to |steps|
      invariant World(d, conns, snaps, peers, mine) && fresh(d) && d.accepts == accepts
      invariant forall k :: 0 <= k < |conns| ==> fresh(conns[k])
      invariant peers == AllPeers(steps[..i]) && d.Valid()
      invariant d.Now() == HciRuns.AfterSteps(accepts, QueueSteps(steps[..i]))
    {
      Unfolded(accepts, steps, i);
      mine, conns, snaps, peers := Perform(d, conns, snaps, peers, mine, steps[i]);
      WorldParts(d, conns, snaps, peers, mine);
    }
    AllDone(steps);
    WorldParts(d, conns, snaps, peers, mine);
    d.InEveryState(0);
    forall i | 0 <= i < |conns|
      ensures IsOwn(d, conns, peers, i)
    {
      ItsOwn(d, conns, snaps, peers, mine, i);
    }
  }

  lemma AllDone(steps: seq<Step>)
    ensures steps[..|steps|] == steps
  {
  }

  lemma NoWorld(d: Device, accepts: nat -> bool, steps: seq<Step>)
    requires d.Valid() && d.held == multiset{}
    ensures World(d, [], [], [], multiset{}) && AllPeers(steps[..0]) == []
    ensures HciRuns.AfterSteps(accepts, QueueSteps(steps[..0])) == Plain([], UNSET, 0, [])
  {
  }

  lemma ItsOwn(d: Device, conns: seq<Connection>, snaps: seq<Snap>, peers: seq<Peer>, mine: multiset<Id>, i: nat)
    requires World(d, conns, snaps, peers, mine) && i < |conns|
    ensures i < |peers| && IsOwn(d, conns, peers, i)
  {
    WorldParts(d, conns, snaps, peers, mine);
    hide World, Run, Packets, Listed, Heads, Apart, DataOf;
    ConnectionIs(d, conns, snaps, peers, mine, i);
    forall j | 0 <= j < |conns| && j != i
      ensures Apart(conns[i].ids, conns[j].ids)
    {
      ConnectionIs(d, conns, snaps, peers, mine, j);
      assert Apart(snaps[i].ids, snaps[j].ids);
    }
  }

  /** So messages that are cut into packets reach their connection whole, once each and in order. */
  lemma MessagesReachTheirConnection(d: Device, conns: seq<Connection>, peers: seq<Peer>, i: nat, h: handle,
                                     messages: seq<Message>)
    requires i < |conns| && i < |peers| && IsOwn(d, conns, peers, i)
    requires AllSendable(peers[i].limits, messages) && peers[i].got == AllFrames(peers[i].limits, h, messages)
    ensures conns[i].delivered == Accepted(peers[i].limits, messages) && conns[i].State().pending == []
  {
    MessagesArrive(peers[i].limits, Rx([], 0, 0), h, messages);
    hide Run, AllFrames, Accepted, AllSendable, Packets;
  }

  /** A closed connection gets nothing more. */
  lemma {:induction false} ClosedStaysClosed(steps: seq<Step>, more: seq<Step>, k: nat)
    requires k < |AllPeers(steps)| && AllPeers(steps)[k].handle == None
    ensures k < |AllPeers(steps + more)| && AllPeers(steps + more)[k] == AllPeers(steps)[k]
    decreases |more|
  {
    if more == [] {
      assert steps + more == steps;
    } else {
      var front, last := more[..|more| - 1], more[|more| - 1];
      ClosedStaysClosed(steps, front, k);
      assert (steps + more)[..|steps + more| - 1] == steps + front;
      hide IsPacket;
      assert AllPeers(steps + more) == PeersAfter(AllPeers(steps + front), last);
    }
  }

  /** The first packet of a longer message, and then the end of its connection. */
  function CutShort(h: handle, limits: map<u16, u16>, p: seq<byte>): seq<Step> {
    [Opens(h, limits), Receives(p), Queue(HciRuns.Disconnect(h))]
  }

  lemma CutShortLeaves(h: handle, limits: map<u16, u16>, p: seq<byte>)
    requires IsPacket(p) && HandleOf(p) == h
    ensures AllPeers(CutShort(h, limits, p)) == [Peer(None, limits, [p])]
  {
    var steps, one, two := CutShort(h, limits, p), Peer(Some(h), limits, []), Peer(Some(h), limits, [p]);
    OpensOne([], h, limits);
    FindsOne([one], p);
    FindOnly(one, h);
    FindOnly(two, h);
    Unfolded(n => true, steps, 0);
    Unfolded(n => true, steps, 1);
    Unfolded(n => true, steps, 2);
    hide IsPacket, Find;
    assert steps[..3] == steps && [] + [p] == [p];
    assert AllPeers(steps[..2]) == [two];
  }

  lemma FindOnly(peer: Peer, h: handle)
    requires peer.handle == Some(h)
    ensures Find([peer], h) == Some(0)
  {
  }

  /** When a connection ends in the middle of a message, nobody gives up what it has gathered: for every message that
      its channel wants, and every first packet that does not hold all of it, that packet is still in memory after
      everything that may follow. */
  method HalfReceivedIsLost(accepts: nat -> bool, h: handle, limits: map<u16, u16>, broadcast: nat, channel: u16,
                            body: seq<byte>, n: nat, more: seq<Step>)
    returns (d: Device, c: Connection)
    requires broadcast < 4 && Wanted(limits, channel, |body|) && L2CAP_HEADER <= n < L2CAP_HEADER + |body| < 0x1_0000
    ensures d.Valid() && c.dev == d && c.Valid()
    ensures c.State().pending == [Frame(h, FIRST_FLUSH, broadcast, Packed(channel, body)[..n])]
    ensures c.fragmented.Some? && c.fragmented.value in d.held && c.fragmented.value in d.cells
  {
    var p := Frame(h, FIRST_FLUSH, broadcast, Packed(channel, body)[..n]);
    FirstPacketWaits(limits, h, broadcast, channel, body, n);
    hide *;
    var conns, peers, mine;
    d, conns, peers, mine := RunSteps(accepts, CutShort(h, limits, p) + more);
    CutShortLeaves(h, limits, p);
    ClosedStaysClosed(CutShort(h, limits, p), more, 0);
    c := conns[0];
    Waits(d, conns, peers, limits, p);
  }

  lemma FirstPacketWaits(limits: map<u16, u16>, h: handle, broadcast: nat, channel: u16, body: seq<byte>, n: nat)
    requires broadcast < 4 && Wanted(limits, channel, |body|) && L2CAP_HEADER <= n < L2CAP_HEADER + |body| < 0x1_0000
    ensures
      var p := Frame(h, FIRST_FLUSH, broadcast, Packed(channel, body)[..n]);
      IsPacket(p) && HandleOf(p) == h && Packets([p]) && Run(limits, Rx([], 0, 0), [p]).0.pending == [p]
  {
    var payload := Packed(channel, body);
    var p := Frame(h, FIRST_FLUSH, broadcast, payload[..n]);
    PackedSays(limits, channel, body);
    FrameSays(h, FIRST_FLUSH, broadcast, payload[..n]);
    CheckFirstBytes(limits, payload, n);
    hide Run, BoundaryOf, LengthOf, HandleOf, Check, Frame, Packed, Framed, Wanted;
    assert Below(Rx([], 0, 0));
    FirstOfMany(limits, Rx([], 0, 0), p, |payload|);
    OnePacketRun(limits, Rx([], 0, 0), p);
  }

  lemma Waits(d: Device, conns: seq<Connection>, peers: seq<Peer>, limits: map<u16, u16>, p: seq<byte>)
    requires |conns| > 0 && |peers| > 0 && IsOwn(d, conns, peers, 0) && peers[0] == Peer(None, limits, [p])
    requires Packets([p]) && Run(limits, Rx([], 0, 0), [p]).0.pending == [p]
    ensures conns[0].dev == d && conns[0].Valid() && d.Valid() && conns[0].State().pending == [p]
    ensures conns[0].fragmented.Some? && conns[0].fragmented.value in d.held && conns[0].fragmented.value in d.cells
  {
    hide Run, Packets, Listed;
    conns[0].Parts();
    HeadIsHeld(d.held, conns[0].fragmented.value);
    conns[0].HeldIsThere(conns[0].fragmented.value);
  }
}
