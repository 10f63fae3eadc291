/** Putting messages together again from the packets of the controller, and what happens to their references
    (acl.c:34-98; buffer.h:131-167). */
module AclReceiver {
  import opened Prelude
  import opened Bytes
  import opened Buffer
  import opened AclFrames
  import opened PacketRefs
  import opened HciQueue

  /** A list of packets that waits to be completed: its head is held, and it is apart from the outgoing queue. */
  ghost predicate Listed(cells: Cells, held: multiset<Id>, queue: seq<Id>, head: Option<Id>, ids: seq<Id>) {
    && Chain(cells, head, ids) && Head(head) <= held
    && (forall i :: 0 <= i < |ids| ==> ids[i] !in queue)
    && (forall i :: 0 <= i < |ids| ==> ids[i] in cells && |cells[ids[i]].data| >= ACL_HEADER)
  }

  /** A packet that is in no list. */
  ghost predicate Loose(cells: Cells, queue: seq<Id>, ids: seq<Id>, b: Id) {
    b in cells && cells[b].next == None && b !in queue && b !in ids && |cells[b].data| >= ACL_HEADER
  }

  /** The same packets with the same links and data; only counts differ. */
  ghost predicate SameLinks(before: Cells, after: Cells) {
    && after.Keys == before.Keys
    && forall q :: q in after ==> after[q].next == before[q].next && after[q].data == before[q].data
  }

  /** Only packets of the list may have gone; links and data of the others are as before. */
  ghost predicate OnlyOf(ids: seq<Id>, before: Cells, after: Cells) {
    && (forall q :: q in after ==> q in before && after[q].next == before[q].next && after[q].data == before[q].data)
    && (forall q :: q in before && q !in ids ==> q in after)
  }

  lemma LinksAreOwn(cells: Cells)
    ensures SameLinks(cells, cells)
  {
  }

  lemma LinksStaySame(a: Cells, b: Cells, c: Cells)
    requires SameLinks(a, b) && SameLinks(b, c)
    ensures SameLinks(a, c)
  {
  }

  lemma OneRefSameLinks(cells: Cells, b: Id)
    requires b in cells
    ensures SameLinks(cells, cells[b := cells[b].(refs := cells[b].refs + 1)])
  {
  }

  lemma OneMoreHeld(held: multiset<Id>, kept: multiset<Id>, b: Id)
    ensures held + multiset{} == held && held + kept + multiset{b} == held + (kept + multiset{b})
  {
  }

  lemma HeadIsHeld(held: multiset<Id>, head: Id)
    requires Head(Some(head)) <= held
    ensures head in held && held - multiset{head} == held - Head(Some(head))
  {
    assert multiset{head} <= held;
  }

  lemma NoneBehind(ids: seq<Id>, i: nat)
    requires i < |ids| && At(ids, i + 1) == None
    ensures i == |ids| - 1
  {
  }

  lemma LooseIs(cells: Cells, queue: seq<Id>, ids: seq<Id>, b: Id)
    requires Loose(cells, queue, ids, b)
    ensures b in cells && b !in ids && |cells[b].data| >= ACL_HEADER
  {
  }

  lemma NothingListed(cells: Cells, held: multiset<Id>, queue: seq<Id>)
    ensures Listed(cells, held, queue, None, []) && DataOf(cells, []) == []
  {
  }

  /** Another reference to any packet. */
  lemma ListedStill(cells: Cells, held: multiset<Id>, queue: seq<Id>, head: Option<Id>, ids: seq<Id>, b: Id)
    requires Listed(cells, held, queue, head, ids) && b in cells
    ensures forall i :: 0 <= i < |ids| ==> ids[i] in cells
    ensures
      var after := cells[b := cells[b].(refs := cells[b].refs + 1)];
      Listed(after, held + multiset{b}, queue, head, ids) && DataOf(after, ids) == DataOf(cells, ids)
  {
    ChainCounts(cells, b, head, ids);
    hide Chain;
  }

  lemma ListedFirst(cells: Cells, held: multiset<Id>, queue: seq<Id>, ids: seq<Id>, b: Id)
    requires Listed(cells, held, queue, None, ids) && Loose(cells, queue, ids, b)
    ensures ids == [] && DataOf(cells, ids) == []
    ensures [] + [b] == [b] && [] + [cells[b].data] == [cells[b].data]
    ensures held + multiset{b} == held - Head(None) + Head(Some(b))
    ensures
      var after := cells[b := cells[b].(refs := cells[b].refs + 1)];
      Listed(after, held + multiset{b}, queue, Some(b), [b]) && DataOf(after, [b]) == [cells[b].data] &&
        SameData(cells, after) && OnlyTouches([], cells, after)
  {
  }

  lemma ListedMore(cells: Cells, held: multiset<Id>, queue: seq<Id>, head: Option<Id>, ids: seq<Id>, b: Id)
    requires Listed(cells, held, queue, head, ids) && ids != [] && Loose(cells, queue, ids, b)
    ensures forall i :: 0 <= i < |ids| ==> ids[i] in cells
    ensures held == held - Head(head) + Head(head)
    ensures
      var after := Linked(cells, ids[|ids| - 1], b);
      && Listed(after, held, queue, head, ids + [b]) && DataOf(after, ids + [b]) == DataOf(cells, ids) + [cells[b].data]
      && SameData(cells, after) && OnlyTouches(ids, cells, after)
  {
    ChainMore(cells, head, ids, b);
    LinkedSameData(cells, ids, b);
    hide Chain, DataOf, Linked;
  }

  lemma LinkedSameData(cells: Cells, ids: seq<Id>, b: Id)
    requires ids != [] && ids[|ids| - 1] in cells && b in cells
    ensures SameData(cells, Linked(cells, ids[|ids| - 1], b))
    ensures OnlyTouches(ids, cells, Linked(cells, ids[|ids| - 1], b))
  {
  }

  lemma ChainMore(cells: Cells, head: Option<Id>, ids: seq<Id>, b: Id)
    requires Chain(cells, head, ids) && ids != [] && b in cells && cells[b].next == None && b !in ids
    ensures forall i :: 0 <= i < |ids| ==> ids[i] in cells
    ensures
      var after := Linked(cells, ids[|ids| - 1], b);
      Chain(after, head, ids + [b]) && DataOf(after, ids + [b]) == DataOf(cells, ids) + [cells[b].data]
  {
    var counted := cells[b := cells[b].(refs := cells[b].refs + 1)];
    assert Chain(cells, Some(b), [b]);
    ChainCounts(cells, b, head, ids);
    ChainCounts(cells, b, Some(b), [b]);
    hide Chain;
    ChainAppend(counted, head, ids, b, [b]);
    assert DataOf(cells, [b]) == [cells[b].data];
  }

  lemma NextListed(cells: Cells, held: multiset<Id>, queue: seq<Id>, head: Option<Id>, ids: seq<Id>, b: Id, i: nat)
    requires Listed(cells, held, queue, head, ids) && At(ids, i) == Some(b)
    ensures i < |ids| && b == ids[i] && b in cells && cells[b].next == At(ids, i + 1) && b !in queue
  {
  }

  lemma HeadOfListed(cells: Cells, held: multiset<Id>, queue: seq<Id>, head: Option<Id>, ids: seq<Id>)
    requires Listed(cells, held, queue, head, ids)
    ensures head == At(ids, 0) && Head(head) <= held
    ensures forall i :: 0 <= i < |ids| ==> ids[i] in cells
    ensures HaveHeaders(DataOf(cells, ids), ACL_HEADER)
  {
  }

  /** Giving up the head frees packets of the list at most. */
  lemma ListGivenUp(before: Cells, cells: Cells, after: Cells, held: multiset<Id>, queue: seq<Id>, head: Id,
                    ids: seq<Id>)
    requires SameLinks(before, cells) && Listed(cells, held, queue, Some(head), ids)
    requires after == Drop(cells, head) && OnlyFrees(cells, after)
    ensures OnlyOf(ids, before, after)
  {
    hide Chain, Drop;
    HeadOfListed(cells, held, queue, Some(head), ids);
    forall q | q in before && q !in ids
      ensures q in after
    {
      DropKeepsOthers(cells, ids, q);
    }
  }

  // ----- the references of a connection -----

  /** From one state to a later one: the list that was pending is given up, the one that is pending now is held,
      and the client has taken what it keeps. Data stay as they are, and only packets of the list have gone or have
      got another link. */
  ghost predicate Settled(ids0: seq<Id>, cells0: Cells, held0: multiset<Id>, f0: Option<Id>,
                          cells: Cells, held: multiset<Id>, f: Option<Id>, kept: multiset<Id>) {
    && Head(f0) <= held0 && held == held0 - Head(f0) + Head(f) + kept
    && OnlyTouches(ids0, cells0, cells)
    && (forall q :: q in cells0 && q !in ids0 ==> q in cells)
  }

  lemma SettledAlready(ids: seq<Id>, cells: Cells, held: multiset<Id>, f: Option<Id>)
    requires Head(f) <= held
    ensures Settled(ids, cells, held, f, cells, held, f, multiset{})
  {
    assert held == held - Head(f) + Head(f) + multiset{};
  }

  lemma SettledBy(ids0: seq<Id>, cells0: Cells, held0: multiset<Id>, f0: Option<Id>, cells: Cells, held: multiset<Id>,
                  kept: multiset<Id>)
    requires OnlyOf(ids0, cells0, cells) && Head(f0) <= held0 && held == held0 + kept - Head(f0)
    ensures Settled(ids0, cells0, held0, f0, cells, held, None, kept)
  {
    assert held0 + kept - Head(f0) == held0 - Head(f0) + Head(None) + kept;
  }

  /** One settlement after another, when the second starts with the same list or with none. */
  lemma SettledThen(ids0: seq<Id>, cells0: Cells, held0: multiset<Id>, f0: Option<Id>,
                    ids1: seq<Id>, cells1: Cells, held1: multiset<Id>, f1: Option<Id>, kept1: multiset<Id>,
                    cells: Cells, held: multiset<Id>, f: Option<Id>, kept: multiset<Id>)
    requires Settled(ids0, cells0, held0, f0, cells1, held1, f1, kept1)
    requires Settled(ids1, cells1, held1, f1, cells, held, f, kept) && (ids1 == ids0 || ids1 == [])
    ensures Settled(ids0, cells0, held0, f0, cells, held, f, kept1 + kept)
  {
    ReferencesThen(held0, Head(f0), held1, Head(f1), kept1, held, Head(f), kept);
    hide Head;
  }

  lemma ReferencesThen(held0: multiset<Id>, list0: multiset<Id>, held1: multiset<Id>, list1: multiset<Id>,
                       kept1: multiset<Id>,
                       held: multiset<Id>, list: multiset<Id>, kept: multiset<Id>)
    requires list0 <= held0 && held1 == held0 - list0 + list1 + kept1 && held == held1 - list1 + list + kept
    ensures held == held0 - list0 + list + (kept1 + kept)
  {
  }

  /** A packet that is added and whose list is then delivered, or not, leaves the references settled. */
  lemma TakenSettles(ids0: seq<Id>, cells0: Cells, held0: multiset<Id>, f0: Option<Id>, b: Id,
                     cells1: Cells, cells: Cells, held: multiset<Id>, f: Option<Id>, kept: multiset<Id>)
    requires SameData(cells0, cells1) && OnlyTouches(ids0, cells0, cells1) && b in cells
    requires cells == cells1 || OnlyOf(ids0 + [b], cells1, cells)
    requires Head(f0) <= held0 && held == held0 - Head(f0) + Head(f) + kept
    ensures Settled(ids0, cells0, held0, f0, cells, held, f, kept)
  {
  }

  ghost predicate SameData(before: Cells, after: Cells) {
    after.Keys == before.Keys && forall q :: q in after ==> after[q].data == before[q].data
  }

  /** What another holder holds is not given up with the list. */
  lemma HeldStays(held0: multiset<Id>, f0: Option<Id>, ids0: seq<Id>, b: Id, held: multiset<Id>, kept: multiset<Id>)
    requires f0 == At(ids0, 0) && b !in ids0 && b in held0 && held == held0 + kept - Head(f0)
    ensures b in held
  {
  }

  lemma HeldOver(held0: multiset<Id>, f0: Option<Id>, ids0: seq<Id>, b: Id, held1: multiset<Id>, f1: Option<Id>,
                 held: multiset<Id>, f: Option<Id>, kept: multiset<Id>)
    requires f0 == At(ids0, 0) && b !in ids0 && b in held0 && Head(f0) <= held0 && held1 == held0 - Head(f0) + Head(f1)
    requires if f == None then held == held1 + kept - Head(f1) else held == held1 && f == f1 && kept == multiset{}
    ensures b in held && held == held0 - Head(f0) + Head(f) + kept
  {
  }

  lemma LooseStill(ids0: seq<Id>, before: Cells, after: Cells, queue: seq<Id>, b: Id)
    requires Loose(before, queue, ids0, b) && OnlyOf(ids0, before, after) && b in after
    ensures Loose(after, queue, [], b) && after[b].data == before[b].data
  {
  }

  // ----- what the specification says, case by case -----

  lemma PacketIs(p: seq<byte>)
    requires IsPacket(p)
    ensures |p| >= ACL_HEADER && (BoundaryOf(p) != CONTINUATION ==> |p[ACL_HEADER..]| >= L2CAP_HEADER)
  {
  }

  lemma ReceiveIs(limits: map<u16, u16>, s: Rx, p: seq<byte>)
    requires Headed(s) && IsPacket(p)
    ensures
      var r := Receive(limits, s, p);
      if BoundaryOf(p) == CONTINUATION then r == if s.expected == INVALID then (s, []) else Gather(s, p)
      else
        var idle := if s.pending != [] then Rx([], 0, s.expected) else s;
        var flushed := if s.pending != [] then [Flat(s.pending, ACL_HEADER)] else [];
        var rc := Check(limits, p[ACL_HEADER..]);
        if rc < 0 then r == (idle.(expected := INVALID), flushed)
        else
          var last := Gather(idle.(expected := rc % 0x1_0000), p);
          r == (last.0, flushed + last.1)
  {
    hide Flat, Check, Gather, BoundaryOf;
  }

  /** With the packet among the pending ones: hand them over, or count what it announces. */
  ghost function Closed(s: Rx, complete: bool, length: u16): (Rx, seq<seq<byte>>)
    requires Headed(s)
  {
    if complete then (Rx([], 0, s.expected), [Flat(s.pending, ACL_HEADER)])
    else (s.(got := (s.got + length) % 0x1_0000), [])
  }

  lemma ClosedIs(s: Rx, complete: bool, length: u16)
    requires Headed(s)
    ensures
      Closed(s, complete, length) ==
      if complete then (Rx([], 0, s.expected), [Flat(s.pending, ACL_HEADER)])
      else (s.(got := (s.got + length) % 0x1_0000), [])
  {
    hide Flat;
  }

  lemma GatherIs(s: Rx, p: seq<byte>, remaining: u16)
    requires Headed(s) && |p| >= ACL_HEADER && remaining == (s.expected - s.got) % 0x1_0000
    ensures Headed(s.(pending := s.pending + [p]))
    ensures Gather(s, p) == Closed(s.(pending := s.pending + [p]), LengthOf(p) >= remaining, LengthOf(p))
  {
    hide Flat, LengthOf;
  }

  /** The receiving side of one connection. `delivered` records what was handed to the layer above. */
  class Connection {
    const dev: Device
    var fragmented: Option<Id>
    var fragmentedSize: u16
    var reassembledSize: u16
    ghost var ids: seq<Id>
    ghost var delivered: seq<seq<byte>>

    ghost predicate Valid()
      reads this, dev
    {
      dev.Valid() && Listed(dev.cells, dev.held, dev.queue, fragmented, ids)
    }

    ghost function Pending(): (packets: seq<seq<byte>>)
      requires Valid()
      reads this, dev
      ensures HaveHeaders(packets, ACL_HEADER) && (packets == [] <==> fragmented == None)
    {
      HeadOfListed(dev.cells, dev.held, dev.queue, fragmented, ids);
      DataOf(dev.cells, ids)
    }

    ghost function State(): (s: Rx)
      requires Valid()
      reads this, dev
      ensures Headed(s)
    {
      Rx(Pending(), fragmentedSize, reassembledSize)
    }

    constructor (dev: Device)
      requires dev.Valid()
      ensures Valid() && this.dev == dev && State() == Rx([], 0, 0) && delivered == []
    {
      this.dev := dev;
      fragmented, fragmentedSize, reassembledSize, ids, delivered := None, 0, 0, [], [];
      new;
      NothingListed(dev.cells, dev.held, dev.queue);
    }

    /** What validity is made of. */
    lemma Parts()
      requires Valid()
      ensures dev.Valid() && Listed(dev.cells, dev.held, dev.queue, fragmented, ids)
      ensures forall i :: 0 <= i < |ids| ==> ids[i] in dev.cells
      ensures Pending() == DataOf(dev.cells, ids) && State() == Rx(Pending(), fragmentedSize, reassembledSize)
      ensures fragmented == At(ids, 0) && Head(fragmented) <= dev.held &&
        (State().pending == [] <==> fragmented == None)
      ensures fragmented == None ==> ids == []
    {
      HeadOfListed(dev.cells, dev.held, dev.queue, fragmented, ids);
      hide Listed;
    }

    lemma Whole()
      requires dev.Valid() && Listed(dev.cells, dev.held, dev.queue, fragmented, ids)
      ensures Valid()
    {
    }

    /** The client reads the message, and may take a reference to any of its packets. */
    method LetClientKeep() returns (kept: multiset<Id>)
      requires Valid()
      modifies dev`cells, dev`held
      ensures Valid() && Pending() == old(Pending()) && dev.Now() == old(dev.Now())
      ensures dev.held == old(dev.held) + kept && SameLinks(old(dev.cells), dev.cells)
    {
      hide *;
      kept := multiset{};
      var at := fragmented;
      ghost var i, before, held, packets := 0, dev.cells, dev.held, Pending();
      Parts();
      ghost var queue := dev.Now();
      LinksAreOwn(before);
      while at.Some?
        invariant Valid() && Pending() == packets && dev.Valid() && dev.Now() == queue
        invariant dev.held == held + kept && SameLinks(before, dev.cells)
        invariant i <= |ids| && at == At(ids, i)
        decreases |ids| - i
      {
        Parts();
        NextListed(dev.cells, dev.held, dev.queue, fragmented, ids, at.value, i);
        var next, keeps := dev.cells[at.value].next, *;
        if keeps {
          ghost var now := dev.cells;
          KeepOne(at.value);
          Parts();
          LinksStaySame(before, now, dev.cells);
          OneMoreHeld(held, kept, at.value);
          kept := kept + multiset{at.value};
        }
        at := next;
        i := i + 1;
      }
      OneMoreHeld(held, kept, 0);
    }

    method KeepOne(b: Id)
      requires Valid() && b in dev.cells
      modifies dev`cells, dev`held
      ensures Valid() && Pending() == old(Pending()) && dev.held == old(dev.held) + multiset{b}
      ensures dev.Now() == old(dev.Now())
      ensures SameLinks(old(dev.cells), dev.cells)
    {
      hide *;
      Parts();
      ListedStill(dev.cells, dev.held, dev.queue, fragmented, ids, b);
      OneRefSameLinks(dev.cells, b);
      dev.Ref(b);
      Whole();
      Parts();
    }

    /** Hands the pending packets over as one stream and gives them up. Nothing but packets of the message is
        freed, and the references that remain are those that were there, less that to the head, and those the
        client took. */
    method Deliver() returns (kept: multiset<Id>)
      requires Valid() && fragmented.Some?
      modifies this`fragmented, this`fragmentedSize, this`ids, this`delivered, dev`cells, dev`held
      ensures Valid() && State() == Rx([], 0, old(State()).expected) && ids == [] && dev.Now() == old(dev.Now())
      ensures delivered == old(delivered) + [Flat(old(State()).pending, ACL_HEADER)]
      ensures dev.held == old(dev.held) + kept - Head(old(fragmented))
      ensures OnlyOf(old(ids), old(dev.cells), dev.cells)
    {
      hide *;
      Parts();
      delivered := delivered + [Flat(Pending(), ACL_HEADER)];
      Whole();
      ghost var before := dev.cells;
      kept := LetClientKeep();
      Parts();
      var head := fragmented.value;
      ghost var list, cells, held := ids, dev.cells, dev.held;
      HeadIsHeld(held, head);
      dev.Release(head);
      ListGivenUp(before, cells, dev.cells, held, dev.queue, head, list);
      fragmented, fragmentedSize, ids := None, 0, [];
      NothingListed(dev.cells, dev.held, dev.queue);
      Whole();
      Parts();
    }

    method Tail() returns (t: Id)
      requires Valid() && fragmented.Some?
      ensures ids != [] && t == ids[|ids| - 1] && t in dev.cells && dev.cells[t].next == None && t !in dev.queue
    {
      hide *;
      Parts();
      t := fragmented.value;
      ghost var i := 0;
      NextListed(dev.cells, dev.held, dev.queue, fragmented, ids, t, 0);
      while dev.cells[t].next.Some?
        invariant 0 <= i < |ids| && t == ids[i] && t in dev.cells
        invariant dev.cells[t].next == At(ids, i + 1) && t !in dev.queue
        decreases |ids| - i
      {
        t := dev.cells[t].next.value;
        i := i + 1;
        NextListed(dev.cells, dev.held, dev.queue, fragmented, ids, t, i);
      }
      NoneBehind(ids, i);
    }

    /** Adds a packet to the pending ones, with a reference of its own. */
    method Add(b: Id)
      requires Valid() && Loose(dev.cells, dev.queue, ids, b)
      modifies this`fragmented, this`ids, dev`cells, dev`held
      ensures Valid() && fragmented.Some? && ids == old(ids) + [b] && dev.Now() == old(dev.Now())
      ensures State() == old(State()).(pending := old(State()).pending + [old(dev.cells[b].data)])
      ensures dev.held == old(dev.held) - Head(old(fragmented)) + Head(fragmented)
      ensures SameData(old(dev.cells), dev.cells) && OnlyTouches(old(ids), old(dev.cells), dev.cells)
    {
      hide *;
      Parts();
      LooseIs(dev.cells, dev.queue, ids, b);
      if fragmented == None {
        ListedFirst(dev.cells, dev.held, dev.queue, ids, b);
        dev.Ref(b);
        fragmented, ids := Some(b), [b];
      } else {
        var t := Tail();
        ListedMore(dev.cells, dev.held, dev.queue, fragmented, ids, b);
        dev.Append(t, b);
        ids := ids + [b];
      }
      Whole();
      Parts();
    }

    /** The message before is over: it is delivered, and the packet at hand stays as it is. */
    method Flush(b: Id) returns (kept: multiset<Id>)
      requires Valid() && fragmented.Some? && Loose(dev.cells, dev.queue, ids, b) && b in dev.held
      modifies this`fragmented, this`fragmentedSize, this`ids, this`delivered, dev`cells, dev`held
      ensures Valid() && State() == Rx([], 0, old(State()).expected) && dev.Now() == old(dev.Now())
      ensures delivered == old(delivered) + [Flat(old(State()).pending, ACL_HEADER)]
      ensures Settled(old(ids), old(dev.cells), old(dev.held), old(fragmented), dev.cells, dev.held, fragmented, kept)
      ensures Loose(dev.cells, dev.queue, ids, b) && b in dev.held && ids == []
      ensures b in old(dev.cells) && b in dev.cells && dev.cells[b].data == old(dev.cells[b].data)
    {
      hide *;
      Parts();
      LooseIs(dev.cells, dev.queue, ids, b);
      ghost var ids0, cells0, held0, f0 := ids, dev.cells, dev.held, fragmented;
      kept := Deliver();
      Parts();
      HeldStays(held0, f0, ids0, b, dev.held, kept);
      HeldIsThere(b);
      SettledBy(ids0, cells0, held0, f0, dev.cells, dev.held, kept);
      LooseStill(ids0, cells0, dev.cells, dev.queue, b);
    }

    /** The packet joins the message, which is delivered if that completes it. */
    method Take(b: Id) returns (kept: multiset<Id>)
      requires Valid() && Loose(dev.cells, dev.queue, ids, b) && b in dev.held
      modifies this`fragmented, this`fragmentedSize, this`ids, this`delivered, dev`cells, dev`held
      ensures Valid() && b in old(dev.cells) && |old(dev.cells[b].data)| >= ACL_HEADER
      ensures (ids == old(ids) + [b] || ids == []) && dev.Now() == old(dev.Now())
      ensures
        var r := Gather(old(State()), old(dev.cells[b].data));
        State() == r.0 && delivered == old(delivered) + r.1
      ensures Settled(old(ids), old(dev.cells), old(dev.held), old(fragmented), dev.cells, dev.held, fragmented, kept)
    {
      hide *;
      Parts();
      LooseIs(dev.cells, dev.queue, ids, b);
      var bytes := dev.cells[b].data;
      var remaining := (reassembledSize - fragmentedSize) % 0x1_0000;
      GatherIs(State(), bytes, remaining);
      ghost var ids0, cells0, held0, f0 := ids, dev.cells, dev.held, fragmented;
      var length := LengthOf(bytes);
      Add(b);
      ghost var f1, held1, cells1 := fragmented, dev.held, dev.cells;
      kept := DeliverOrCount(length >= remaining, length);
      Parts();
      HeldOver(held0, f0, ids0, b, held1, f1, dev.held, fragmented, kept);
      HeldIsThere(b);
      TakenSettles(ids0, cells0, held0, f0, b, cells1, dev.cells, dev.held, fragmented, kept);
    }

    method DeliverOrCount(complete: bool, length: u16) returns (kept: multiset<Id>)
      requires Valid() && fragmented.Some?
      modifies this`fragmented, this`fragmentedSize, this`ids, this`delivered, dev`cells, dev`held
      ensures Valid() && (ids == old(ids) || ids == []) && dev.Now() == old(dev.Now())
      ensures
        var r := Closed(old(State()), complete, length);
        State() == r.0 && delivered == old(delivered) + r.1
      ensures
        if fragmented == None then dev.held == old(dev.held) + kept - Head(old(fragmented))
        else dev.held == old(dev.held) && fragmented == old(fragmented) && kept == multiset{}
      ensures dev.cells == old(dev.cells) || OnlyOf(old(ids), old(dev.cells), dev.cells)
    {
      hide *;
      Parts();
      ClosedIs(State(), complete, length);
      if complete {
        kept := Deliver();
        Parts();
      } else {
        kept := multiset{};
        CountIn(length);
        assert delivered == delivered + [];
      }
    }

    method CountIn(length: u16)
      requires Valid()
      modifies this`fragmentedSize
      ensures Valid() && State() == old(State()).(got := (old(State()).got + length) % 0x1_0000)
    {
      fragmentedSize := (fragmentedSize + length) % 0x1_0000;
    }

    method Expect(size: u16)
      requires Valid()
      modifies this`reassembledSize
      ensures Valid() && State() == old(State()).(expected := size)
    {
      reassembledSize := size;
    }

    method Refuse()
      requires Valid()
      modifies this`reassembledSize
      ensures Valid() && State() == old(State()).(expected := INVALID)
    {
      reassembledSize := INVALID;
    }

    lemma HeldIsThere(b: Id)
      requires Valid() && b in dev.held
      ensures b in dev.cells
    {
    }

    lemma FreedIffUnheld()
      requires Valid()
      ensures forall q :: q !in dev.cells <==> Unheld(dev.cells, dev.held + Head(dev.outgoing), q)
    {
      hide LinksTo, Unheld, Balanced, Listed, NoneDying;
      forall q
        ensures q !in dev.cells <==> Unheld(dev.cells, dev.held + Head(dev.outgoing), q)
      {
        GoneIsUnheld(dev.cells, dev.held + Head(dev.outgoing), q);
      }
    }

    /** What a packet does to the connection is what the specification says, deliveries included. And it leaves
        the references in balance: of those that were there the old list is given up, the new one is held, and
        the client has what it took. A packet is freed if and only if nobody holds it any more, which can only
        happen to the fragments of a message that was delivered. */
    method OnData(limits: map<u16, u16>, b: Id) returns (kept: multiset<Id>)
      requires Valid() && Loose(dev.cells, dev.queue, ids, b) && b in dev.held && IsPacket(dev.cells[b].data)
      modifies this, dev`cells, dev`held
      ensures Valid()
      ensures
        var r := Receive(limits, old(State()), old(dev.cells[b].data));
        State() == r.0 && delivered == old(delivered) + r.1
      ensures Settled(old(ids), old(dev.cells), old(dev.held), old(fragmented), dev.cells, dev.held, fragmented, kept)
      ensures (forall q :: q in ids ==> q in old(ids) || q == b) && dev.Now() == old(dev.Now())
      ensures forall q :: q !in dev.cells <==> Unheld(dev.cells, dev.held + Head(dev.outgoing), q)
    {
      hide *;
      Parts();
      LooseIs(dev.cells, dev.queue, ids, b);
      var bytes := dev.cells[b].data;
      PacketIs(bytes);
      ReceiveIs(limits, State(), bytes);
      ghost var ids0, cells0, held0, f0 := ids, dev.cells, dev.held, fragmented;
      SettledAlready(ids0, cells0, held0, f0);
      kept := multiset{};
      var first := BoundaryOf(bytes) != CONTINUATION;
      if first {
        if fragmented.Some? {
          kept := Flush(b);
        }
        var rc := Check(limits, bytes[ACL_HEADER..]);
        if rc < 0 {
          Refuse();
          FreedIffUnheld();
          return;
        }
        Expect(rc % 0x1_0000);
      } else if reassembledSize == INVALID {
        FreedIffUnheld();
        return;
      }
      var soFar := kept;
      ghost var ids1, cells1, held1, f1 := ids, dev.cells, dev.held, fragmented;
      kept := Take(b);
      SettledThen(ids0, cells0, held0, f0, ids1, cells1, held1, f1, soFar, dev.cells, dev.held, fragmented, kept);
      kept := soFar + kept;
      FreedIffUnheld();
    }
  }
}
