/** The queue of outgoing ACL packets and the credits of the controller
    (hci_dev.c:175-235; acl.c:119-135, 360-384; hci.c:491-503; buffer.h:131-167). */
module HciQueue {
  import opened Prelude
  import opened Bytes
  import AclCredits
  import opened PacketRefs
  import opened QueueHistory

  const UNSET: nat := 0xffff

  /** The history is legal, and tells what waits and what is in flight. The credits add up modulo 2^16, and exactly
      as long as the controller is honest. */
  ghost predicate Tallies(t: Tally, waiting: seq<seq<byte>>, available: u16, limit: u16) {
    && t.legal && t.waiting == waiting
    && (available + t.flying + t.failed - limit) % 0x1_0000 == 0
    && (t.honest ==> t.flying >= 0 && available + t.flying + t.failed == limit)
  }

  lemma SentTallies(t: Tally, waiting: seq<seq<byte>>, available: u16, limit: u16, ok: bool)
    requires Tallies(t, waiting, available, limit) && waiting != [] && available > 0
    ensures Tallies(After(t, Sent(waiting[0], ok)), waiting[1..], available - 1, limit)
    ensures After(t, Sent(waiting[0], ok)).waiting == waiting[1..]
  {
  }

  lemma QueuedTallies(t: Tally, waiting: seq<seq<byte>>, available: u16, limit: u16, data: seq<seq<byte>>)
    requires Tallies(t, waiting, available, limit)
    ensures Tallies(t.(waiting := t.waiting + data), waiting + data, available, limit)
  {
  }

  lemma PurgedTallies(t: Tally, waiting: seq<seq<byte>>, available: u16, limit: u16, h: u16)
    requires Tallies(t, waiting, available, limit)
    ensures Tallies(After(t, Purged(h)), Without(waiting, h), available, limit)
  {
  }

  /** Completions are added unchecked, and may wrap around. */
  lemma CompletedTallies(t: Tally, waiting: seq<seq<byte>>, available: u16, limit: u16, n: u16)
    requires Tallies(t, waiting, available, limit)
    ensures Tallies(After(t, Completed(n)), waiting, (available + n) % 0x1_0000, limit)
  {
    var sum := available + n;
    if sum < 0x1_0000 {
      assert sum % 0x1_0000 == sum;
    } else {
      assert sum % 0x1_0000 == sum - 0x1_0000;
      var d := available + t.flying + t.failed - limit;
      assert (d - 0x1_0000) % 0x1_0000 == 0;
    }
  }

  /** The first answer about the buffers replaces the credits, and with them how many there are in all. */
  lemma LimitTallies(t: Tally, waiting: seq<seq<byte>>, limit: u16, credits: u16)
    requires Tallies(t, waiting, UNSET, limit)
    ensures Tallies(t, waiting, credits, (limit + credits + 1) % 0x1_0000)
    ensures t.honest ==> (limit + credits + 1) % 0x1_0000 == credits
  {
    var d := UNSET + t.flying + t.failed - limit;
    var sum := limit + credits + 1;
    var after := sum % 0x1_0000;
    assert after == sum || after == sum - 0x1_0000;
    assert credits + t.flying + t.failed - after == d - 0x1_0000 || credits + t.flying + t.failed - after == d;
  }

  // ----- the queue without packets in memory -----

  /** What waits, the credits, how many packets were offered to the backend so far, and the history. */
  datatype Plain = Plain(waiting: seq<seq<byte>>, available: u16, offered: nat, log: seq<Event>)

  /** What the backend answers to n packets, beginning with number `first`. */
  function Answers(accepts: nat -> bool, first: nat, n: nat): (answers: seq<bool>)
    ensures |answers| == n
  {
    seq(n, i requires i >= 0 => accepts(first + i))
  }

  /** How many packets leave when the queue is worked off. */
  function Leaving(s: Plain): (n: nat)
    ensures n <= |s.waiting| && n <= s.available
  {
    Min(|s.waiting|, s.available)
  }

  function AnswersTo(accepts: nat -> bool, s: Plain): (answers: seq<bool>)
    ensures |answers| == Leaving(s)
  {
    Answers(accepts, s.offered, Leaving(s))
  }

  /** The packets that wait longest leave, one for each credit, and the backend's answers go into the history. */
  function Drained(accepts: nat -> bool, s: Plain): Plain {
    var n := Leaving(s);
    Plain(s.waiting[n..], s.available - n, s.offered + n,
          s.log + Sending(s.waiting[..n], AnswersTo(accepts, s)))
  }

  function Enqueued(s: Plain, packets: seq<seq<byte>>): Plain {
    s.(waiting := s.waiting + packets, log := s.log + Queueing(packets))
  }

  function Credited(s: Plain, n: u16): Plain {
    s.(available := (s.available + n) % 0x1_0000, log := s.log + [Completed(n)])
  }

  function Sized(s: Plain, maxPackets: u16): Plain {
    if s.available == UNSET then s.(available := maxPackets) else s
  }

  function PurgedOf(s: Plain, h: u16): Plain {
    s.(waiting := Without(s.waiting, h), log := s.log + [Purged(h)])
  }

  class Device {
    /** The packets in memory. */
    var cells: Cells
    var outgoing: Option<Id>
    var available: u16
    /** Whether the backend accepts the n-th packet it is offered. */
    const accepts: nat -> bool
    var offered: nat
    /** References held by callers, by the backend and by reassembly. */
    ghost var held: multiset<Id>
    ghost var queue: seq<Id>
    ghost var log: seq<Event>
    /** The credits there are in all. */
    ghost var limit: u16

    ghost predicate Memory(head: Option<Id>)
      reads this`cells, this`held, this`queue
    {
      Balanced(cells, held + Head(head)) && NoneDying(cells) && Chain(cells, head, queue)
    }

    /** The history is legal, what waits according to it is what is linked, and no credit is lost or made up. */
    ghost predicate Accounts()
      reads this`cells, this`queue, this`log, this`available, this`limit
    {
      && (forall i :: 0 <= i < |queue| ==> queue[i] in cells)
      && Tallies(Replay(log), DataOf(cells, queue), available, limit)
    }

    ghost predicate ValidFrom(head: Option<Id>)
      reads this
    {
      Memory(head) && Accounts()
    }

    /** Nothing waits while there is a credit. */
    ghost predicate Valid()
      reads this
    {
      ValidFrom(outgoing) && (queue == [] || available == 0)
    }

    /** What is to be seen of the queue. */
    ghost function Here(): Plain
      requires forall i :: 0 <= i < |queue| ==> queue[i] in cells
      reads this
    {
      Plain(Waiting(), available, offered, log)
    }

    ghost function Now(): Plain
      requires Valid()
      reads this
    {
      Here()
    }

    constructor (accepts: nat -> bool)
      ensures Valid() && this.accepts == accepts && Now() == Plain([], UNSET, 0, [])
      ensures held == multiset{} && cells == map[] && queue == []
    {
      this.accepts := accepts;
      cells, outgoing, available, offered := map[], None, UNSET, 0;
      held, queue, log, limit := multiset{}, [], [], UNSET;
    }

    /** What holds between any two calls: counts equal holders, nothing held is missing, packets wait only
        without credits, every connection's packets leave first in first out, and the credits add up. */
    lemma InEveryState(h: u16)
      requires Valid()
      ensures forall b :: b in cells ==> 0 < cells[b].refs == held[b] + Head(outgoing)[b] + |LinksTo(cells, b)|
      ensures forall b :: b in held ==> b in cells
      ensures forall i :: 0 <= i < |queue| ==> queue[i] in cells
      ensures queue == [] || available == 0
      ensures QueuedFor(log, h) == SentFor(log, h) + Only(DataOf(cells, queue), h)
      ensures
        var t := Replay(log);
        && (available + t.flying + t.failed - limit) % 0x1_0000 == 0
        && (t.honest ==> t.flying >= 0 && available + t.flying + t.failed == limit)
    {
      hide Replay, LinksTo;
      FirstInFirstOut(log, h);
    }

    // ----- references -----

    /** A new packet whose link takes over the caller's reference to the next one. */
    method AllocBefore(b: Id, data: seq<byte>, next: Option<Id>)
      requires Valid() && b !in cells && Head(next) <= held
      modifies this`cells, this`held
      ensures Valid() && held == old(held) - Head(next) + multiset{b} && Now() == old(Now())
      ensures cells == old(cells)[b := Cell(1, next, data)]
    {
      hide LinksTo, Replay, Balanced, Chain, NoneDying, DataOf;
      NewBalanced(cells, held, outgoing, b, data, next);
      NewIsElsewhere(cells, outgoing, queue, b, data, next);
      cells := cells[b := Cell(1, next, data)];
      held := held - Head(next) + multiset{b};
    }

    static lemma NewBalanced(cells: Cells, held: multiset<Id>, head: Option<Id>, b: Id, data: seq<byte>,
                             next: Option<Id>)
      requires Balanced(cells, held + Head(head)) && b !in cells && Head(next) <= held
      ensures Balanced(cells[b := Cell(1, next, data)], held - Head(next) + multiset{b} + Head(head))
    {
      hide LinksTo, Balanced;
      var all, one := held + Head(head), cells[b := Cell(1, None, data)];
      AllocBalanced(cells, all, b, data);
      if next.Some? {
        LinkBalanced(one, all + multiset{b}, b, next.value);
        SwapHeld(held, Head(head), b, next.value);
        assert one[b := one[b].(next := next)] == cells[b := Cell(1, next, data)];
      } else {
        NoneSwapped(held, Head(head), b);
      }
    }

    static lemma NoneSwapped(held: multiset<Id>, others: multiset<Id>, b: Id)
      ensures held + others + multiset{b} == held - Head(None) + multiset{b} + others
    {
    }

    static lemma SwapHeld(held: multiset<Id>, others: multiset<Id>, b: Id, next: Id)
      requires next in held
      ensures held + others + multiset{b} - multiset{next} == held - Head(Some(next)) + multiset{b} + others
    {
    }

    static lemma NewIsElsewhere(cells: Cells, head: Option<Id>, ids: seq<Id>, b: Id, data: seq<byte>, next: Option<Id>)
      requires Chain(cells, head, ids) && b !in cells && NoneDying(cells)
      ensures forall i :: 0 <= i < |ids| ==> ids[i] in cells
      ensures
        var after := cells[b := Cell(1, next, data)];
        Chain(after, head, ids) && NoneDying(after) && DataOf(after, ids) == DataOf(cells, ids)
    {
    }

    method Alloc(b: Id, data: seq<byte>)
      requires Valid() && b !in cells
      modifies this`cells, this`held
      ensures Valid() && held == old(held) + multiset{b} && Now() == old(Now())
      ensures cells == old(cells)[b := Cell(1, None, data)]
    {
      hide LinksTo, Replay, Balanced, Chain, NoneDying, DataOf;
      AllocBefore(b, data, None);
      assert old(held) - Head(None) == old(held);
    }

    method AddRef(b: Id)
      requires b in cells
      modifies this`cells
      ensures cells == old(cells)[b := old(cells[b]).(refs := old(cells[b]).refs + 1)]
    {
      cells := cells[b := cells[b].(refs := cells[b].refs + 1)];
    }

    method SetNext(b: Id, next: Option<Id>)
      requires b in cells
      modifies this`cells
      ensures cells == old(cells)[b := old(cells[b]).(next := next)]
    {
      cells := cells[b := cells[b].(next := next)];
    }

    /** Gives up a reference: the last one gives up the link first and then frees the packet. No packet is
        touched after it was freed, and none is freed twice. */
    method Unref(b: Id, ghost all: multiset<Id>)
      requires Balanced(cells, all) && b in all
      modifies this`cells
      ensures cells == Drop(old(cells), b)
      ensures Balanced(cells, all - multiset{b}) && OnlyFrees(old(cells), cells)
      decreases |LiveIds(cells)|
    {
      hide LinksTo, OnlyFrees;
      ghost var before := cells;
      DropBalanced(cells, all, b);
      HeldIsLive(cells, all, b);
      var refs := cells[b].refs;
      cells := cells[b := cells[b].(refs := refs - 1)];
      if refs == 1 {
        LastRefShrinks(before, b);
        DyingBalanced(before, all, b);
        var next := cells[b].next;
        if next.Some? {
          Unref(next.value, all - multiset{b} + multiset{next.value});
        }
        cells := cells - {b};
      }
    }

    method Release(b: Id)
      requires Valid() && b in held
      modifies this`cells, this`held
      ensures Valid() && held == old(held) - multiset{b} && Now() == old(Now())
      ensures cells == Drop(old(cells), b) && OnlyFrees(old(cells), cells)
    {
      hide LinksTo, Replay, Drop, Balanced;
      ReleaseFrom(b, outgoing);
    }

    ghost function Waiting(): seq<seq<byte>>
      requires forall i :: 0 <= i < |queue| ==> queue[i] in cells
      reads this`cells, this`queue
    {
      DataOf(cells, queue)
    }

    method ReleaseFrom(b: Id, ghost head: Option<Id>)
      requires Memory(head) && b in held
      modifies this`cells, this`held
      ensures Memory(head) && Waiting() == old(Waiting()) && held == old(held) - multiset{b}
      ensures cells == Drop(old(cells), b) && OnlyFrees(old(cells), cells)
    {
      hide LinksTo, Drop, Balanced;
      ghost var before, all := cells, held + Head(head);
      Unref(b, all);
      held := held - multiset{b};
      assert all - multiset{b} == held + Head(head);
      StillNoneDying(before, cells);
      FreeingTouchesNothing(before, cells);
      ChainKept(before, cells, held + Head(head), head, queue, []);
    }

    lemma StillNoneDying(before: Cells, after: Cells)
      requires NoneDying(before) && OnlyFrees(before, after)
      ensures NoneDying(after)
    {
    }

    /** A caller takes another reference. */
    method Ref(b: Id)
      requires Valid() && b in cells
      modifies this`cells, this`held
      ensures Valid() && held == old(held) + multiset{b} && Now() == old(Now())
      ensures cells == old(cells)[b := old(cells[b]).(refs := old(cells[b]).refs + 1)]
    {
      hide LinksTo, Replay, Balanced;
      Keep(b, outgoing);
    }

    /** Appends a packet to a list that is not the queue, as reassembly does: the link is a new holder. */
    method Append(t: Id, b: Id)
      requires Valid() && t in cells && cells[t].next == None && t !in queue && b in cells
      modifies this`cells
      ensures Valid() && cells == Linked(old(cells), t, b) && Now() == old(Now())
    {
      hide LinksTo, Replay, Balanced, Chain;
      LinkedElsewhere(cells, held + Head(outgoing), outgoing, queue, t, b);
      AddRef(b);
      SetNext(t, Some(b));
    }

    /** Somebody takes a reference. */
    method Keep(b: Id, ghost head: Option<Id>)
      requires Memory(head) && b in cells
      modifies this`cells, this`held
      ensures Memory(head) && Waiting() == old(Waiting()) && held == old(held) + multiset{b}
      ensures cells == old(cells)[b := old(cells[b]).(refs := old(cells[b]).refs + 1)]
    {
      hide LinksTo, Balanced;
      RefBalanced(cells, held + Head(head), b);
      AddRef(b);
      held := held + multiset{b};
      assert held + Head(head) == old(held) + Head(head) + multiset{b};
    }

    // ----- sending -----

    /** The backend takes the packet or refuses it, and keeps a reference while it needs one. */
    method HciSendData(b: Id) returns (ok: bool, keeps: bool)
      requires b in cells
      modifies this`offered
      ensures ok == accepts(old(offered)) && offered == old(offered) + 1
    {
      ok, keeps := accepts(offered), *;
      offered := offered + 1;
    }

    /** Takes the first packet off the list: the reference of its link passes to `next`, its own to the caller. */
    method TakeOff(b: Id) returns (next: Option<Id>)
      requires Memory(Some(b))
      modifies this`cells, this`held, this`queue
      ensures Memory(next) && b in cells && held == old(held) + multiset{b}
      ensures queue == old(queue)[1..] && Waiting() == old(Waiting())[1..]
      ensures forall q :: q in old(cells) ==> q in cells && cells[q].data == old(cells)[q].data
      ensures Unlinked(old(cells), cells, b)
    {
      hide LinksTo, Balanced;
      ghost var all := held + multiset{b};
      ChainTail(cells, queue);
      next := cells[b].next;
      if next.Some? {
        UnlinkBalanced(cells, all, b);
      } else {
        assert cells[b := cells[b].(next := None)] == cells;
        assert all + Head(next) == all;
      }
      SetNext(b, None);
      held := all;
      queue := queue[1..];
    }

    /** Packets may have gone, and of those that are left only b has lost its link. */
    static ghost predicate Unlinked(before: Cells, after: Cells, b: Id) {
      forall q :: q in after ==>
        q in before && after[q].data == before[q].data && after[q].next == if q == b then None else before[q].next
    }

    static ghost predicate AllUnlinked(before: Cells, after: Cells, gone: seq<Id>) {
      forall q :: q in after ==>
        q in before && after[q].data == before[q].data && after[q].next == if q in gone then None else before[q].next
    }

    static lemma NothingUnlinked(cells: Cells, ids: seq<Id>)
      ensures AllUnlinked(cells, cells, ids[..0])
    {
    }

    static lemma OneMoreUnlinked(before: Cells, now: Cells, after: Cells, ids: seq<Id>, k: nat, left: seq<Id>)
      requires k < |ids| && left == ids[k..] && AllUnlinked(before, now, ids[..k]) && Unlinked(now, after, left[0])
      ensures AllUnlinked(before, after, ids[..k + 1])
    {
      assert ids[..k + 1] == ids[..k] + [left[0]];
    }

    static lemma LetGoTouchesNothing(before: Cells, now: Cells, after: Cells, b: Id)
      requires b in before && OnlyFrees(now, after)
      requires now == before || now == before[b := before[b].(refs := before[b].refs + 1)]
      ensures OnlyTouches([], before, after)
    {
    }

    static lemma StaysUnlinked(before: Cells, without: Cells, after: Cells, b: Id)
      requires Unlinked(before, without, b) && OnlyTouches([], without, after)
      ensures Unlinked(before, after, b)
    {
    }

    /** The backend may keep a reference; the queue gives its own up. */
    method LetGo(b: Id, keeps: bool, ghost head: Option<Id>)
      requires Memory(head) && b in held && b in cells
      modifies this`cells, this`held
      ensures Memory(head) && Waiting() == old(Waiting())
      ensures old(held) - multiset{b} <= held && OnlyTouches([], old(cells), cells)
    {
      hide *;
      if keeps {
        Keep(b, head);
      }
      ghost var now := cells;
      ReleaseFrom(b, head);
      LetGoTouchesNothing(old(cells), now, cells, b);
    }

    /** Offers the first packet to the backend and gives it up. */
    method Offer(b: Id) returns (next: Option<Id>, ok: bool)
      requires Memory(Some(b))
      modifies this`cells, this`held, this`queue, this`offered
      ensures Memory(next) && queue == old(queue)[1..] && Waiting() == old(Waiting())[1..]
      ensures ok == accepts(old(offered)) && offered == old(offered) + 1
      ensures old(held) <= held && Unlinked(old(cells), cells, b)
    {
      hide *;
      next := TakeOff(b);
      ghost var without := cells;
      var keeps;
      ok, keeps := HciSendData(b);
      LetGo(b, keeps, next);
      StaysUnlinked(old(cells), without, cells, b);
    }

    lemma FirstIsNext(b: Id)
      requires Memory(Some(b))
      ensures queue != [] && queue[0] == b
    {
    }

    /** One turn of the sending loop. */
    method SendFirst(b: Id) returns (next: Option<Id>, ok: bool)
      requires ValidFrom(Some(b)) && available > 0
      modifies this`cells, this`available, this`offered, this`held, this`queue, this`log
      ensures ValidFrom(next) && queue == old(queue)[1..] && available == old(available) - 1
      ensures log == old(log) + [Sent(old(Waiting())[0], ok)] && Waiting() == old(Waiting())[1..]
      ensures ok == accepts(old(offered)) && offered == old(offered) + 1
      ensures old(held) <= held && Unlinked(old(cells), cells, b)
    {
      hide LinksTo, Replay, Drop, Balanced, NoneDying, Chain, DataOf, After, Unlinked, Tallies;
      FirstIsNext(b);
      ghost var waiting := Waiting();
      next, ok := Offer(b);
      HeadIsFirst(cells, next, queue);
      SentTallies(Replay(log), waiting, available, limit, ok);
      ReplaySnoc(log, Sent(waiting[0], ok));
      log := log + [Sent(waiting[0], ok)];
      available := available - 1;
    }

    lemma HeadTellsEmpty(head: Option<Id>)
      requires Memory(head)
      ensures head.Some? <==> queue != []
    {
    }

    /** The loop of sending: one packet a turn, while there are packets and credits. */
    method SendWhileCredits() returns (next: Option<Id>, sent: int, errors: int, ghost answers: seq<bool>)
      requires ValidFrom(outgoing)
      modifies this`cells, this`available, this`offered, this`held, this`queue, this`log
      ensures ValidFrom(next) && old(held) <= held && (next == None || available == 0)
      ensures SentSoFar(old(queue), old(Waiting()), old(available), old(log), answers, queue, Waiting(), available, log)
      ensures |answers| <= |old(queue)| && AllUnlinked(old(cells), cells, old(queue)[..|answers|])
      ensures answers == Answers(accepts, old(offered), |answers|) && offered == old(offered) + |answers|
      ensures errors == Failures(answers) && sent == |answers| - errors
    {
      hide LinksTo, Replay, Drop, Balanced, NoneDying, Chain, DataOf, Min, Sending, Failures, Result, SentSoFar,
        Unlinked, AllUnlinked, Tallies, Answers;
      sent, errors, next, answers := 0, 0, outgoing, [];
      ghost var ids, waiting, credits, was, before := queue, Waiting(), available, log, cells;
      NothingSent(ids, waiting, credits, was);
      NoAnswers(accepts, offered);
      NothingUnlinked(cells, ids);
      while next.Some? && available > 0
        invariant ValidFrom(next) && old(held) <= held
        invariant SentSoFar(ids, waiting, credits, was, answers, queue, Waiting(), available, log)
        invariant |answers| <= |ids| && AllUnlinked(before, cells, ids[..|answers|])
        invariant answers == Answers(accepts, old(offered), |answers|) && offered == old(offered) + |answers|
        invariant errors == Failures(answers) && sent == |answers| - errors
      {
        FirstIsNext(next.value);
        ghost var left, leftWaiting, leftCredits, sofar, now := queue, Waiting(), available, log, cells;
        LeftBehind(ids, waiting, credits, was, answers, left, leftWaiting, leftCredits, sofar);
        var ok;
        next, ok := SendFirst(next.value);
        OneMoreUnlinked(before, now, cells, ids, |answers|, left);
        OneMoreAnswer(accepts, old(offered), |answers|);
        OneMoreSent(ids, waiting, credits, was, answers, left, leftWaiting, leftCredits, sofar, ok);
        if ok {
          sent := sent + 1;
        } else {
          errors := errors + 1;
        }
        answers := answers + [ok];
      }
    }

    /** Sends from the head of the queue while there are credits. */
    method SendQueued() returns (rc: int)
      requires ValidFrom(outgoing)
      modifies this`cells, this`outgoing, this`available, this`offered, this`held, this`queue, this`log
      ensures Valid() && old(held) <= held
      ensures Now() == Drained(accepts, old(Here())) && rc == Result(AnswersTo(accepts, old(Here())))
      ensures Leaving(old(Here())) <= |old(queue)| && queue == old(queue)[Leaving(old(Here()))..]
      ensures AllUnlinked(old(cells), cells, old(queue)[..Leaving(old(Here()))])
    {
      hide LinksTo, Replay, Drop, Balanced, NoneDying, Chain, DataOf, Min, Sending, Failures, Result, SentSoFar,
        Unlinked, AllUnlinked, Tallies, Answers, Leaving;
      ghost var ids, s := queue, Here();
      var next, sent, errors, answers := SendWhileCredits();
      HeadTellsEmpty(next);
      AllSent(accepts, ids, s, answers, queue, Waiting(), available, log);
      outgoing := next;
      rc := if errors == 0 then sent else -errors;
    }

    // ----- queueing -----

    method Tail() returns (tail: Id)
      requires Memory(outgoing) && outgoing.Some?
      ensures queue != [] && tail == queue[|queue| - 1] && Live(cells, tail) && cells[tail].next == None
    {
      hide LinksTo, Balanced;
      HeadTellsEmpty(outgoing);
      tail := outgoing.value;
      ghost var i := 0;
      while cells[tail].next.Some?
        invariant 0 <= i < |queue| && tail == queue[i]
        decreases |queue| - i
      {
        tail := cells[tail].next.value;
        i := i + 1;
      }
    }

    ghost predicate CanQueue(b: Id, message: seq<Id>)
      reads this`cells, this`queue
    {
      && Chain(cells, Some(b), message)
      && forall i, j :: 0 <= i < |queue| && 0 <= j < |message| ==> queue[i] != message[j]
    }

    lemma MessageIsThere(b: Id, message: seq<Id>)
      requires CanQueue(b, message)
      ensures forall i :: 0 <= i < |message| ==> message[i] in cells
    {
    }

    method EnqueueFirst(b: Id, ghost message: seq<Id>)
      requires Memory(outgoing) && CanQueue(b, message) && outgoing == None
      modifies this`cells, this`outgoing, this`queue
      ensures Memory(outgoing) && queue == message && Waiting() == DataOf(old(cells), message)
      ensures OnlyTouches([], old(cells), cells)
    {
      hide LinksTo, Balanced;
      ghost var all := held + Head(outgoing);
      RefBalanced(cells, all, b);
      AddRef(b);
      outgoing := Some(b);
      queue := message;
      assert all + multiset{b} == held + Head(outgoing);
    }

    method EnqueueBehind(b: Id, ghost message: seq<Id>)
      requires Memory(outgoing) && CanQueue(b, message) && outgoing.Some?
      modifies this`cells, this`queue
      ensures Memory(outgoing) && queue == old(queue) + message
      ensures Waiting() == old(Waiting()) + DataOf(old(cells), message)
      ensures OnlyTouches(old(queue), old(cells), cells)
    {
      hide LinksTo, Balanced, Chain, NoneDying, OnlyTouches, DataOf;
      var tail := Tail();
      FirstIsThere(cells, b, message);
      LinkingTouches(cells, tail, b, queue);
      LinkedBehind(cells, held + Head(outgoing), outgoing, queue, b, message);
      AddRef(b);
      SetNext(tail, Some(b));
      queue := queue + message;
    }

    static lemma LinkingTouches(before: Cells, t: Id, b: Id, ids: seq<Id>)
      requires ids != [] && t == ids[|ids| - 1] && t in before && b in before
      ensures OnlyTouches(ids, before, Linked(before, t, b))
    {
    }

    /** Links a message behind the last packet of the queue, or makes it the queue. */
    method EnqueuePackets(b: Id, ghost message: seq<Id>)
      requires Memory(outgoing) && CanQueue(b, message)
      modifies this`cells, this`outgoing, this`queue
      ensures Memory(outgoing) && queue == old(queue) + message
      ensures Waiting() == old(Waiting()) + DataOf(old(cells), message)
      ensures OnlyTouches(old(queue), old(cells), cells)
    {
      hide LinksTo, Balanced, NoneDying, Chain, DataOf, CanQueue, Memory;
      MessageIsThere(b, message);
      HeadTellsEmpty(outgoing);
      if outgoing == None {
        assert queue + message == message && Waiting() + DataOf(cells, message) == DataOf(cells, message);
        EnqueueFirst(b, message);
      } else {
        EnqueueBehind(b, message);
      }
    }

    method Enqueue(b: Id, ghost message: seq<Id>)
      requires ValidFrom(outgoing) && CanQueue(b, message)
      modifies this`cells, this`outgoing, this`queue, this`log
      ensures ValidFrom(outgoing) && queue == old(queue) + message
      ensures Waiting() == old(Waiting()) + DataOf(old(cells), message)
      ensures OnlyTouches(old(queue), old(cells), cells)
      ensures log == old(log) + Queueing(DataOf(old(cells), message))
      ensures Here() == Enqueued(Plain(old(Waiting()), available, offered, old(log)), DataOf(old(cells), message))
    {
      hide LinksTo, Balanced, Replay, NoneDying, Queueing, Chain, DataOf, Tallies, CanQueue, Memory;
      MessageIsThere(b, message);
      ghost var data := DataOf(cells, message);
      QueuedTallies(Replay(log), Waiting(), available, limit, data);
      EnqueuePackets(b, message);
      QueueIsThere();
      ReplayQueueing(log, data);
      log := log + Queueing(data);
    }

    /** What a valid queue is made of. */
    lemma Parts()
      requires Valid()
      ensures ValidFrom(outgoing) && Memory(outgoing) && (queue == [] || available == 0)
      ensures (forall i :: 0 <= i < |queue| ==> queue[i] in cells) && Now() == Here()
      ensures Here() == Plain(Waiting(), available, offered, log) && |Waiting()| == |queue|
    {
    }

    /** How many packets are linked from the first one. */
    method Length(head: Option<Id>, ghost ids: seq<Id>) returns (n: nat)
      requires Chain(cells, head, ids)
      ensures n == |ids|
    {
      hide Chain;
      var at := head;
      HeadIsFirst(cells, head, ids);
      n := 0;
      while at.Some?
        invariant n <= |ids| && at == At(ids, n)
        decreases |ids| - n
      {
        ChainNext(cells, head, ids, n);
        at := cells[at.value].next;
        n := n + 1;
      }
    }

    /** The final consumer of a message: queues it, sends what can be sent, and gives it up. What it returns after
        sending without an error is no count of packets: 1 if nothing waits any more, and 0 if something does. */
    method SendMessage(b: Id, ghost message: seq<Id>) returns (rc: int)
      requires Valid() && b in held && CanQueue(b, message)
      modifies this`cells, this`outgoing, this`available, this`offered, this`held, this`queue, this`log
      ensures Valid() && old(held) - multiset{b} <= held
      ensures
        var s := Enqueued(old(Now()), DataOf(old(cells), message));
        Now() == Drained(accepts, s) && rc == Answer(AnswersTo(accepts, s), Now().waiting == [])
      ensures AclCredits.IsSend(old(available), rc, available)
      ensures OnlyTouches(old(queue) + message, old(cells), cells)
      ensures forall i :: 0 <= i < |queue| ==> queue[i] in old(queue) + message
    {
      hide *;
      Parts();
      CanQueueIs(b, message);
      ghost var was, cells0 := queue, cells;
      SomethingWaits(Here(), DataOf(cells, message));
      Enqueue(b, message);
      QueueIsThereNow();
      ghost var before, s := cells, Here();
      rc := SendNow(b, was, message);
      ghost var now := cells;
      Release(b);
      Parts();
      DrainedIs(accepts, s);
      SentTouches(cells0, before, now, cells, was, message, Leaving(s), queue);
    }

    /** With the message at the end of the queue: sends what can be sent, and tells whether something still waits. */
    method SendNow(b: Id, ghost was: seq<Id>, ghost message: seq<Id>) returns (rc: int)
      requires ValidFrom(outgoing) && b in held && message != [] && message[0] == b && queue == was + message
      modifies this`cells, this`outgoing, this`available, this`offered, this`held, this`queue, this`log
      ensures Valid() && old(held) <= held
      ensures Now() == Drained(accepts, old(Here())) && queue == old(queue)[Leaving(old(Here()))..]
      ensures rc == Answer(AnswersTo(accepts, old(Here())), Now().waiting == [])
      ensures Leaving(old(Here())) <= |old(queue)|
      ensures AllUnlinked(old(cells), cells, old(queue)[..Leaving(old(Here()))])
    {
      hide *;
      QueueIsThereNow();
      ghost var all, before, s := queue, cells, Here();
      rc := SendQueued();
      Parts();
      DrainedIs(accepts, s);
      if rc >= 0 {
        HeldStays(old(held), held, b);
        rc := NotQueued(b, before, all, was, message, Leaving(s));
      }
    }

    static lemma HeldStays(before: multiset<Id>, after: multiset<Id>, b: Id)
      requires b in before && before <= after
      ensures b in after
    {
    }

    lemma CanQueueIs(b: Id, message: seq<Id>)
      requires CanQueue(b, message)
      ensures message != [] && message[0] == b && b in cells
      ensures forall i :: 0 <= i < |message| ==> message[i] in cells
    {
      FirstIsThere(cells, b, message);
    }

    lemma QueueIsThereNow()
      requires ValidFrom(outgoing)
      ensures Memory(outgoing) && forall i :: 0 <= i < |queue| ==> queue[i] in cells
    {
    }

    /** The packets linked from b, less those that wait, if they are more. */
    method NotQueued(b: Id, ghost before: Cells, ghost all: seq<Id>, ghost was: seq<Id>, ghost message: seq<Id>,
                     ghost n: nat)
      returns (rc: nat)
      requires Memory(outgoing) && message != [] && message[0] == b && b in held
      requires all == was + message && n <= |all| && queue == all[n..] && AllUnlinked(before, cells, all[..n])
      ensures rc == if queue == [] then 1 else 0
    {
      hide LinksTo, Balanced, NoneDying, Chain, AllUnlinked;
      ghost var mine := Mine(before, all, was, message, n);
      var queued := Length(outgoing, queue);
      var our := Length(Some(b), mine);
      rc := if queued >= our then 0 else our - queued;
    }

    /** What is linked from the first packet of the message after n packets of the queue were sent: the whole
        message if the packet still waits, and otherwise nothing behind it. */
    lemma Mine(before: Cells, all: seq<Id>, was: seq<Id>, message: seq<Id>, n: nat) returns (mine: seq<Id>)
      requires Memory(outgoing) && message != [] && message[0] in held
      requires all == was + message && n <= |all| && queue == all[n..] && AllUnlinked(before, cells, all[..n])
      ensures Chain(cells, Some(message[0]), mine)
      ensures |mine| == if n <= |was| then |message| else 1
    {
      hide LinksTo, DataOf;
      if n <= |was| {
        mine := message;
        assert queue == was[n..] + message;
        hide Balanced, NoneDying, AllUnlinked;
        ChainBack(cells, outgoing, was[n..], message);
      } else {
        mine := [message[0]];
        assert message[0] in cells;
        assert all[..n][|was|] == message[0];
      }
    }

    /** The controller has completed packets: their credits come back, as many as it says. */
    method OnCompletedPackets(n: u16) returns (rc: int)
      requires Valid()
      modifies this`cells, this`outgoing, this`available, this`offered, this`held, this`queue, this`log
      ensures Valid() && old(held) <= held
      ensures
        var s := Credited(old(Now()), n);
        Now() == Drained(accepts, s) && rc == Result(AnswersTo(accepts, s))
      ensures OnlyTouches(old(queue), old(cells), cells) && forall i :: 0 <= i < |queue| ==> queue[i] in old(queue)
    {
      hide LinksTo, Replay, Balanced, NoneDying, Chain, DataOf, Tallies, After, Drained, AnswersTo, Result, Leaving,
        AllUnlinked, OnlyTouches;
      ghost var ids, before, s := queue, cells, Here();
      CompletedTallies(Replay(log), Waiting(), available, limit, n);
      ReplaySnoc(log, Completed(n));
      log := log + [Completed(n)];
      available := (available + n) % 0x1_0000;
      rc := SendQueued();
      UnlinkedTouches(before, cells, ids, Leaving(Credited(s, n)), queue);
    }

    /** The event of section 7.7.19: one count for each connection, added up in 16 bits. */
    method NrOfCompletedPackets(counts: seq<u16>) returns (rc: int)
      requires Valid()
      modifies this`cells, this`outgoing, this`available, this`offered, this`held, this`queue, this`log
      ensures Valid() && old(held) <= held
      ensures
        var s := Credited(old(Now()), Total(counts) % 0x1_0000);
        Now() == Drained(accepts, s) && rc == Result(AnswersTo(accepts, s))
      ensures OnlyTouches(old(queue), old(cells), cells) && forall i :: 0 <= i < |queue| ==> queue[i] in old(queue)
    {
      hide *;
      var completed := AddUp(counts);
      rc := OnCompletedPackets(completed);
    }

    /** The controller's answer to Read_Buffer_Size counts only while no packet has been sent. */
    method SetBufferSize(maxPackets: u16)
      requires Valid()
      modifies this`available, this`limit
      ensures Valid() && Now() == Sized(old(Now()), maxPackets)
      ensures old(available) == UNSET && Replay(log).honest ==> limit == maxPackets
      ensures old(available) != UNSET ==> limit == old(limit)
    {
      hide LinksTo, Replay, Balanced, NoneDying, Chain, Tallies;
      if available == UNSET {
        LimitTallies(Replay(log), Waiting(), limit, maxPackets);
        available, limit := maxPackets, (limit + maxPackets + 1) % 0x1_0000;
      }
    }

    // ----- disconnecting -----

    static lemma OneUnlinkedTouches(before: Cells, after: Cells, b: Id, ids: seq<Id>)
      requires Unlinked(before, after, b) && At(ids, 0) == Some(b)
      ensures OnlyTouches(ids, before, after)
    {
      assert b in ids;
    }

    static lemma RewiringTouches(before: Cells, t: Id, b: Id, ids: seq<Id>)
      requires t in ids && b in ids && t in before && b in before && t != b
      ensures
        var relinked := before[t := before[t].(next := before[b].next)];
        OnlyTouches(ids, before, relinked[b := relinked[b].(next := None)])
    {
    }

    static lemma NothingTouched(cells: Cells, ids: seq<Id>)
      ensures OnlyTouches(ids, cells, cells)
    {
    }

    static lemma WithoutFirst(kept: seq<Id>, rest: seq<Id>)
      requires rest != []
      ensures forall i :: 0 <= i < |kept + rest[1..]| ==> (kept + rest[1..])[i] in kept + rest
    {
      assert kept + rest == kept + [rest[0]] + rest[1..];
    }

    /** Takes the packet b, which stands behind `kept`, out of the queue. */
    method Remove(prev: Option<Id>, b: Id, ghost kept: seq<Id>, ghost rest: seq<Id>)
      requires Memory(outgoing) && queue == kept + rest && At(rest, 0) == Some(b)
      requires prev == LastOf(kept)
      modifies this`cells, this`outgoing, this`held, this`queue
      ensures Memory(outgoing) && queue == kept + rest[1..] && held == old(held) + multiset{b} && b in cells
      ensures OnlyTouches(old(queue), old(cells), cells)
      ensures forall q :: q in old(cells) ==> q in cells && cells[q].data == old(cells)[q].data
    {
      hide LinksTo, Balanced, Chain, DataOf, Unlinked, NoneDying, OnlyTouches;
      HeadIsFirst(cells, outgoing, queue);
      if prev == None {
        assert queue == rest && kept + rest[1..] == rest[1..];
        ghost var before := cells;
        outgoing := TakeOff(b);
        OneUnlinkedTouches(before, cells, b, rest);
      } else {
        RemoveBehind(prev.value, b, kept, rest);
      }
    }

    method RemoveBehind(t: Id, b: Id, ghost kept: seq<Id>, ghost rest: seq<Id>)
      requires Memory(outgoing) && queue == kept + rest && At(rest, 0) == Some(b)
      requires LastOf(kept) == Some(t)
      modifies this`cells, this`held, this`queue
      ensures Memory(outgoing) && queue == kept + rest[1..] && held == old(held) + multiset{b} && b in cells
      ensures OnlyTouches(old(queue), old(cells), cells)
      ensures forall q :: q in old(cells) ==> q in cells && cells[q].data == old(cells)[q].data
    {
      hide LinksTo, Balanced, Chain, OnlyTouches;
      CutOutChain(cells, outgoing, kept, rest);
      RewiringTouches(cells, t, b, queue);
      CutOutBalanced(cells, held + Head(outgoing), t, b);
      SetNext(t, cells[b].next);
      SetNext(b, None);
      held := held + multiset{b};
      queue := kept + rest[1..];
      assert old(held) + Head(outgoing) + multiset{b} == held + Head(outgoing);
    }

    method Cancel(prev: Option<Id>, b: Id, ghost kept: seq<Id>, ghost rest: seq<Id>)
      requires Memory(outgoing) && queue == kept + rest && At(rest, 0) == Some(b)
      requires prev == LastOf(kept)
      modifies this`cells, this`outgoing, this`held, this`queue
      ensures Memory(outgoing) && queue == kept + rest[1..] && held == old(held)
      ensures OnlyTouches(old(queue), old(cells), cells)
      ensures Waiting() == old(Waiting())[..|kept|] + old(Waiting())[|kept| + 1..]
    {
      hide LinksTo, Balanced, Chain, NoneDying, Drop, OnlyTouches, OnlyFrees;
      HeadIsFirst(cells, outgoing, queue);
      ghost var waiting, before, was := Waiting(), cells, queue;
      Remove(prev, b, kept, rest);
      HeadIsFirst(cells, outgoing, queue);
      WithoutOne(waiting, Waiting(), kept, rest);
      ghost var now := cells;
      ReleaseFrom(b, outgoing);
      FreeingTouchesNothing(now, cells);
      TouchesThen(was, before, now, [], cells);
    }

    lemma WithoutOne(before: seq<seq<byte>>, after: seq<seq<byte>>, kept: seq<Id>, rest: seq<Id>)
      requires rest != [] && |before| == |kept + rest| && |after| == |kept + rest[1..]|
      requires forall i, j :: 0 <= i < |before| && 0 <= j < |after| && (kept + rest)[i] == (kept + rest[1..])[j] ==>
        before[i] == after[j]
      ensures after == before[..|kept|] + before[|kept| + 1..]
    {
      forall j | 0 <= j < |after|
        ensures after[j] == before[if j < |kept| then j else j + 1]
      {
        assert (kept + rest[1..])[j] == (kept + rest)[if j < |kept| then j else j + 1];
      }
    }

    /** A disconnected connection: its packets leave the queue, and the others stay as they are. */
    method Disconnected(h: u16)
      requires Valid()
      modifies this`cells, this`outgoing, this`held, this`queue, this`log
      ensures Valid() && held == old(held) && Now() == PurgedOf(old(Now()), h)
      ensures OnlyTouches(old(queue), old(cells), cells) && forall i :: 0 <= i < |queue| ==> queue[i] in old(queue)
    {
      hide LinksTo, Balanced, Replay, NoneDying, Chain, OnlyTouches, Without, Tallies, After, DataOf;
      PurgedTallies(Replay(log), Waiting(), available, limit, h);
      Purge(h);
      QueueIsThere();
      if queue != [] {
        assert queue[0] in old(queue);
      }
      ReplaySnoc(log, Purged(h));
      log := log + [Purged(h)];
    }

    method Purge(h: u16)
      requires Memory(outgoing)
      modifies this`cells, this`outgoing, this`held, this`queue
      ensures Memory(outgoing) && held == old(held)
      ensures Waiting() == Without(old(Waiting()), h)
      ensures OnlyTouches(old(queue), old(cells), cells) && forall i :: 0 <= i < |queue| ==> queue[i] in old(queue)
    {
      hide LinksTo, Balanced, NoneDying, Without, Chain, DataOf, BelongsTo, PurgedFrom, Memory, At, LastOf,
        OnlyTouches;
      EmptyEnds();
      QueueIsThere();
      ghost var kept: seq<Id>, rest, waiting, ids, before := [], queue, Waiting(), queue, cells;
      NothingTouched(before, ids);
      var b, prev: Option<Id> := outgoing, None;
      NothingKept(waiting, h);
      assert kept + rest == queue;
      while b.Some?
        invariant Memory(outgoing) && held == old(held)
        invariant forall i :: 0 <= i < |queue| ==> queue[i] in cells
        invariant queue == kept + rest && b == At(rest, 0) && |kept| + |rest| <= |old(queue)|
        invariant prev == LastOf(kept)
        invariant OnlyTouches(ids, before, cells) && forall i :: 0 <= i < |queue| ==> queue[i] in ids
        invariant PurgedFrom(Waiting(), |kept|, h) == Without(waiting, h)
        decreases |rest|
      {
        AtSome(rest, b.value);
        ghost var now, was := cells, queue;
        b, prev, kept := PurgeNext(prev, b.value, h, kept, rest);
        TouchesThen(ids, before, now, was, cells);
        rest := rest[1..];
      }
      AtNone(rest);
      assert kept + rest == kept;
      NothingLeft(Waiting(), h);
    }

    /** One turn of that loop: the packet b is taken out, or stays as the last of those kept. */
    method PurgeNext(prev: Option<Id>, b: Id, h: u16, ghost kept: seq<Id>, ghost rest: seq<Id>)
      returns (next: Option<Id>, last: Option<Id>, ghost left: seq<Id>)
      requires Memory(outgoing) && queue == kept + rest && At(rest, 0) == Some(b) && rest != []
      requires forall i :: 0 <= i < |queue| ==> queue[i] in cells
      requires prev == LastOf(kept)
      modifies this`cells, this`outgoing, this`held, this`queue
      ensures Memory(outgoing) && held == old(held) && queue == left + rest[1..] && |left| <= |kept| + 1
      ensures forall i :: 0 <= i < |queue| ==> queue[i] in cells
      ensures next == At(rest[1..], 0) && last == LastOf(left)
      ensures OnlyTouches(old(queue), old(cells), cells) && forall i :: 0 <= i < |queue| ==> queue[i] in old(queue)
      ensures PurgedFrom(Waiting(), |left|, h) == PurgedFrom(old(Waiting()), |kept|, h)
    {
      hide LinksTo, Balanced, NoneDying, Without, Chain, DataOf, BelongsTo, PurgedFrom, Memory, At, LastOf,
        OnlyTouches;
      AtSome(rest, b);
      NothingTouched(cells, queue);
      WithoutFirst(kept, rest);
      NextInQueue(kept, rest);
      PurgeStep(Waiting(), |kept|, h);
      next, last, left := cells[b].next, prev, kept;
      if BelongsTo(cells[b].data, h) {
        Cancel(prev, b, kept, rest);
      } else {
        ShiftOne(kept, rest);
        last, left := Some(b), kept + [rest[0]];
      }
      QueueIsThere();
    }

    lemma AtSome(ids: seq<Id>, b: Id)
      requires At(ids, 0) == Some(b)
      ensures ids != [] && ids[0] == b
    {
    }

    lemma AtNone(ids: seq<Id>)
      requires At(ids, 0) == None
      ensures ids == []
    {
    }

    lemma QueueIsThere()
      requires Memory(outgoing)
      ensures outgoing == At(queue, 0)
      ensures forall i :: 0 <= i < |queue| ==> queue[i] in cells
    {
    }

    lemma NextInQueue(kept: seq<Id>, rest: seq<Id>)
      requires Memory(outgoing) && queue == kept + rest && rest != []
      ensures rest[0] in cells && cells[rest[0]].next == At(rest[1..], 0)
      ensures cells[rest[0]].data == Waiting()[|kept|]
    {
      NextInList(cells, outgoing, kept, rest);
    }

    lemma NextInList(cells: Cells, head: Option<Id>, kept: seq<Id>, rest: seq<Id>)
      requires Chain(cells, head, kept + rest) && rest != []
      ensures rest[0] in cells && cells[rest[0]].next == At(rest[1..], 0)
    {
      ChainBack(cells, head, kept, rest);
    }

    lemma ShiftOne(kept: seq<Id>, rest: seq<Id>)
      requires rest != []
      ensures kept + rest == kept + [rest[0]] + rest[1..]
      ensures LastOf(kept + [rest[0]]) == Some(rest[0])
    {
    }

    lemma EmptyEnds()
      ensures LastOf([]) == None
    {
    }

    /** The packets that stay when the purge has come to position k. */
    ghost function PurgedFrom(waiting: seq<seq<byte>>, k: nat, h: u16): seq<seq<byte>>
      requires k <= |waiting|
    {
      waiting[..k] + Without(waiting[k..], h)
    }

    lemma NothingKept(waiting: seq<seq<byte>>, h: u16)
      ensures PurgedFrom(waiting, 0, h) == Without(waiting, h)
    {
      assert waiting[0..] == waiting;
    }

    lemma NothingLeft(waiting: seq<seq<byte>>, h: u16)
      ensures PurgedFrom(waiting, |waiting|, h) == waiting
    {
    }

    lemma PurgeStep(waiting: seq<seq<byte>>, k: nat, h: u16)
      requires k < |waiting|
      ensures
        if BelongsTo(waiting[k], h) then
          var left := waiting[..k] + waiting[k + 1..];
          PurgedFrom(left, k, h) == PurgedFrom(waiting, k, h)
        else
          PurgedFrom(waiting, k + 1, h) == PurgedFrom(waiting, k, h)
    {
      assert waiting[k..][1..] == waiting[k + 1..];
      if BelongsTo(waiting[k], h) {
        var left := waiting[..k] + waiting[k + 1..];
        assert left[..k] == waiting[..k] && left[k..] == waiting[k + 1..];
        assert [] + Without(waiting[k + 1..], h) == Without(waiting[k + 1..], h);
      } else {
        assert waiting[..k + 1] == waiting[..k] + [waiting[k]];
        assert waiting[..k] + ([waiting[k]] + Without(waiting[k + 1..], h)) ==
          waiting[..k + 1] + Without(waiting[k + 1..], h);
      }
    }
  }

  /** Sending from the queue touches the links of what waited, and nothing else. */
  lemma UnlinkedTouches(before: Cells, after: Cells, ids: seq<Id>, n: nat, left: seq<Id>)
    requires n <= |ids| && Device.AllUnlinked(before, after, ids[..n]) && left == ids[n..]
    ensures OnlyTouches(ids, before, after) && forall i :: 0 <= i < |left| ==> left[i] in ids
  {
  }

  lemma SentTouches(c0: Cells, c1: Cells, c2: Cells, c3: Cells, was: seq<Id>, message: seq<Id>, n: nat,
                        left: seq<Id>)
    requires OnlyTouches(was, c0, c1) && OnlyFrees(c2, c3)
    requires n <= |was + message| && Device.AllUnlinked(c1, c2, (was + message)[..n]) && left == (was + message)[n..]
    ensures OnlyTouches(was + message, c0, c3) && forall i :: 0 <= i < |left| ==> left[i] in was + message
  {
    UnlinkedTouches(c1, c2, was + message, n, left);
    hide Device.AllUnlinked;
    forall q | q in c0 && q in c3
      ensures c3[q].data == c0[q].data && (q !in was + message ==> c3[q].next == c0[q].next)
    {
      assert q in c1 && q in c2;
      assert q in was ==> q in was + message;
    }
  }

  lemma SomethingWaits(s: Plain, packets: seq<seq<byte>>)
    requires packets != []
    ensures Enqueued(s, packets).waiting != [] && Enqueued(s, packets).available == s.available
  {
  }

  /** What working off the queue means for a sender: an error or an answer of 1 used up a credit, and 0 says that
      there is no credit left. */
  lemma DrainedIs(accepts: nat -> bool, s: Plain)
    ensures
      var after, answers := Drained(accepts, s), AnswersTo(accepts, s);
      && Leaving(s) <= |s.waiting|
      && (after.waiting == [] <==> Leaving(s) == |s.waiting|)
      && (after.waiting == [] || after.available == 0)
      && (Result(answers) < 0 ==> Result(answers) == Answer(answers, after.waiting == []))
      && (Result(answers) >= 0 ==> Answer(answers, after.waiting == []) == if after.waiting == [] then 1 else 0)
      && (s.waiting != [] ==> AclCredits.IsSend(s.available, Answer(answers, after.waiting == []), after.available))
  {
    hide Sending, Answers;
  }

  function LastOf(ids: seq<Id>): Option<Id> {
    if ids == [] then None else Some(ids[|ids| - 1])
  }

  function Total(counts: seq<u16>): nat {
    if counts == [] then 0 else Total(counts[..|counts| - 1]) + counts[|counts| - 1]
  }

  method AddUp(counts: seq<u16>) returns (completed: u16)
    ensures completed == Total(counts) % 0x1_0000
  {
    completed := 0;
    for i := 0 to |counts|
      invariant completed == Total(counts[..i]) % 0x1_0000
    {
      TotalSnoc(counts, i);
      completed := (completed + counts[i]) % 0x1_0000;
    }
    assert counts[..|counts|] == counts;
  }

  lemma {:induction false} TotalSnoc(counts: seq<u16>, i: nat)
    requires i < |counts|
    ensures Total(counts[..i + 1]) == Total(counts[..i]) + counts[i] <= Total(counts)
    decreases |counts| - i
  {
    assert counts[..i + 1][..i] == counts[..i];
    if i + 1 < |counts| {
      TotalSnoc(counts, i + 1);
    } else {
      assert counts[..i + 1] == counts;
    }
  }

  /** Counts of several connections add up. */
  lemma {:induction false} TotalAdds(a: seq<u16>, b: seq<u16>)
    ensures Total(a + b) == Total(a) + Total(b)
    ensures |a| == 1 ==> Total(a) == a[0]
    decreases |b|
  {
    if b == [] {
      assert a + b == a;
    } else {
      var front, last := b[..|b| - 1], b[|b| - 1];
      assert (a + b)[..|a + b| - 1] == a + front;
      TotalAdds(a, front);
    }
    assert |a| == 1 ==> Total(a[..0]) == 0;
  }

  function Sending(packets: seq<seq<byte>>, answers: seq<bool>): seq<Event>
    requires |packets| == |answers|
  {
    seq(|packets|, i requires 0 <= i < |packets| => Sent(packets[i], answers[i]))
  }

  lemma SendingSnoc(packets: seq<seq<byte>>, answers: seq<bool>, ok: bool)
    requires |packets| == |answers| + 1
    ensures Sending(packets, answers + [ok])
         == Sending(packets[..|answers|], answers) + [Sent(packets[|answers|], ok)]
    ensures Failures(answers + [ok]) == Failures(answers) + if ok then 0 else 1
  {
    assert (answers + [ok])[..|answers|] == answers;
  }

  /** What has been sent of a queue, by now. */
  ghost predicate SentSoFar(ids: seq<Id>, waiting: seq<seq<byte>>, credits: nat, was: seq<Event>, answers: seq<bool>,
                            left: seq<Id>, leftWaiting: seq<seq<byte>>, leftCredits: nat, log: seq<Event>) {
    && |answers| <= |ids| == |waiting| && leftCredits == credits - |answers|
    && left == ids[|answers|..] && leftWaiting == waiting[|answers|..]
    && log == was + Sending(waiting[..|answers|], answers)
  }

  lemma NothingSent(ids: seq<Id>, waiting: seq<seq<byte>>, credits: nat, was: seq<Event>)
    requires |ids| == |waiting|
    ensures SentSoFar(ids, waiting, credits, was, [], ids, waiting, credits, was) && Failures([]) == 0
  {
    assert was + Sending([], []) == was;
  }

  lemma LeftBehind(ids: seq<Id>, waiting: seq<seq<byte>>, credits: nat, was: seq<Event>, answers: seq<bool>,
                   left: seq<Id>, leftWaiting: seq<seq<byte>>, leftCredits: nat, log: seq<Event>)
    requires SentSoFar(ids, waiting, credits, was, answers, left, leftWaiting, leftCredits, log)
    ensures |answers| <= |ids| && left == ids[|answers|..]
  {
  }

  lemma OneMoreSent(ids: seq<Id>, waiting: seq<seq<byte>>, credits: nat, was: seq<Event>, answers: seq<bool>,
                    left: seq<Id>, leftWaiting: seq<seq<byte>>, leftCredits: nat, log: seq<Event>, ok: bool)
    requires SentSoFar(ids, waiting, credits, was, answers, left, leftWaiting, leftCredits, log)
    requires left != [] && |leftWaiting| == |left| && leftCredits > 0
    ensures SentSoFar(ids, waiting, credits, was, answers + [ok], left[1..], leftWaiting[1..], leftCredits - 1,
                      log + [Sent(leftWaiting[0], ok)])
    ensures Failures(answers + [ok]) == Failures(answers) + if ok then 0 else 1
  {
    var k := |answers|;
    SendingSnoc(waiting[..k + 1], answers, ok);
    hide Sending, Failures;
    assert waiting[..k + 1][..k] == waiting[..k];
    var a, b := Sending(waiting[..k], answers), [Sent(waiting[k], ok)];
    assert was + a + b == was + (a + b);
  }

  lemma AllSent(accepts: nat -> bool, ids: seq<Id>, s: Plain, answers: seq<bool>, left: seq<Id>,
                leftWaiting: seq<seq<byte>>, leftCredits: u16, log: seq<Event>)
    requires SentSoFar(ids, s.waiting, s.available, s.log, answers, left, leftWaiting, leftCredits, log)
    requires left == [] || leftCredits == 0
    requires answers == Answers(accepts, s.offered, |answers|)
    ensures |answers| == Leaving(s) <= |ids| && answers == AnswersTo(accepts, s) && left == ids[Leaving(s)..]
    ensures Plain(leftWaiting, leftCredits, s.offered + |answers|, log) == Drained(accepts, s)
    ensures Result(answers) == (var errors: int := Failures(answers); if errors == 0 then |answers| else -errors)
  {
    hide Sending, Failures;
  }

  lemma NoAnswers(accepts: nat -> bool, first: nat)
    ensures Answers(accepts, first, 0) == []
  {
  }

  lemma OneMoreAnswer(accepts: nat -> bool, first: nat, n: nat)
    ensures Answers(accepts, first, n + 1) == Answers(accepts, first, n) + [accepts(first + n)]
  {
  }

  function Failures(answers: seq<bool>): nat {
    if answers == [] then 0 else Failures(answers[..|answers| - 1]) + if answers[|answers| - 1] then 0 else 1
  }

  /** The errors are the packets the backend refused. */
  lemma {:induction false} FailuresAreRefusals(answers: seq<bool>)
    ensures Failures(answers) == multiset(answers)[false]
  {
    if answers == [] {
    } else {
      var front := answers[..|answers| - 1];
      FailuresAreRefusals(front);
      assert answers == front + [answers[|answers| - 1]];
    }
  }

  /** What sending a message returns, with `empty` telling that nothing waits any more. */
  function Answer(answers: seq<bool>, empty: bool): int {
    var errors: int := Failures(answers);
    if errors > 0 then -errors else if empty then 1 else 0
  }

  /** The number of packets sent, or minus the number of errors if there was any. */
  function Result(answers: seq<bool>): int {
    var errors: int := Failures(answers);
    if errors == 0 then |answers| else -errors
  }
}
