/** What a history of the outgoing queue means: which packets are still waiting, and where the credits
    of the controller are (section 4.1.1 of Bluetooth Core Vol 4 Part E). */
module QueueHistory {
  import opened Bytes
  import opened AclFrames

  datatype Event =
    | Queued(data: seq<byte>)
    | Sent(data: seq<byte>, ok: bool)
    | Completed(n: nat)
    | Purged(h: u16)

  /** The packets waiting, those the controller has accepted and not completed, and those it refused.
      `legal` tells that every packet sent was the one waiting longest, and `honest` that the controller never
      completed more packets than it had accepted. */
  datatype Tally = Tally(waiting: seq<seq<byte>>, flying: int, failed: nat, legal: bool, honest: bool)

  /** A packet that belongs to a connection (acl.c:124-126). */
  predicate BelongsTo(data: seq<byte>, h: u16) {
    |data| >= ACL_HEADER && HandleOf(data) == h
  }

  function Without(packets: seq<seq<byte>>, h: u16): seq<seq<byte>> {
    if packets == [] then []
    else (if BelongsTo(packets[0], h) then [] else [packets[0]]) + Without(packets[1..], h)
  }

  function After(t: Tally, e: Event): Tally {
    match e
    case Queued(data) => t.(waiting := t.waiting + [data])
    case Sent(data, ok) =>
      if t.waiting != [] && t.waiting[0] == data then
        if ok then t.(waiting := t.waiting[1..], flying := t.flying + 1)
        else t.(waiting := t.waiting[1..], failed := t.failed + 1)
      else t.(legal := false)
    case Completed(n) => t.(flying := t.flying - n, honest := t.honest && n <= t.flying)
    case Purged(h) => t.(waiting := Without(t.waiting, h))
  }

  function Replay(log: seq<Event>): Tally {
    if log == [] then Tally([], 0, 0, true, true) else After(Replay(log[..|log| - 1]), log[|log| - 1])
  }

  lemma ReplaySnoc(log: seq<Event>, e: Event)
    ensures Replay(log + [e]) == After(Replay(log), e)
  {
    assert (log + [e])[..|log|] == log;
  }

  function Queueing(packets: seq<seq<byte>>): seq<Event> {
    seq(|packets|, i requires 0 <= i < |packets| => Queued(packets[i]))
  }

  lemma {:induction false} ReplayQueueing(log: seq<Event>, packets: seq<seq<byte>>)
    ensures Replay(log + Queueing(packets)) == Replay(log).(waiting := Replay(log).waiting + packets)
  {
    hide Replay;
    if packets == [] {
      assert log + Queueing(packets) == log;
      assert Replay(log).waiting + packets == Replay(log).waiting;
    } else {
      var front, last := packets[..|packets| - 1], packets[|packets| - 1];
      ReplayQueueing(log, front);
      assert log + Queueing(packets) == (log + Queueing(front)) + [Queued(last)];
      ReplaySnoc(log + Queueing(front), Queued(last));
      assert Replay(log).waiting + packets == Replay(log).waiting + front + [last];
    }
  }

  // ----- first in, first out, connection by connection -----

  function Only(packets: seq<seq<byte>>, h: u16): seq<seq<byte>> {
    if packets == [] then []
    else (if BelongsTo(packets[0], h) then [packets[0]] else []) + Only(packets[1..], h)
  }

  /** The packets of a connection that were queued, and those that were sent, since its last purge. */
  function QueuedFor(log: seq<Event>, h: u16): seq<seq<byte>> {
    if log == [] then []
    else
      var before := QueuedFor(log[..|log| - 1], h);
      match log[|log| - 1]
      case Queued(data) => if BelongsTo(data, h) then before + [data] else before
      case Purged(g) => if g == h then [] else before
      case _ => before
  }

  function SentFor(log: seq<Event>, h: u16): seq<seq<byte>> {
    if log == [] then []
    else
      var before := SentFor(log[..|log| - 1], h);
      match log[|log| - 1]
      case Sent(data, _) => if BelongsTo(data, h) then before + [data] else before
      case Purged(g) => if g == h then [] else before
      case _ => before
  }

  lemma {:induction false} OnlyConcat(a: seq<seq<byte>>, b: seq<seq<byte>>, h: u16)
    ensures Only(a + b, h) == Only(a, h) + Only(b, h)
  {
    if a == [] {
      assert a + b == b;
      assert [] + Only(b, h) == Only(b, h);
    } else {
      assert (a + b)[1..] == a[1..] + b;
      OnlyConcat(a[1..], b, h);
    }
  }

  /** A purge takes out the packets of its own connection and no others. */
  lemma {:induction false} PurgeTakesItsOwn(packets: seq<seq<byte>>, g: u16, h: u16)
    ensures Only(Without(packets, g), h) == if g == h then [] else Only(packets, h)
  {
    if packets == [] {
    } else {
      PurgeTakesItsOwn(packets[1..], g, h);
      OnlyConcat(if BelongsTo(packets[0], g) then [] else [packets[0]], Without(packets[1..], g), h);
      OnlyOne(packets[0], h);
    }
  }

  lemma OnlyOne(p: seq<byte>, h: u16)
    ensures Only([p], h) == if BelongsTo(p, h) then [p] else []
  {
    assert [p][1..] == [];
    assert Only([], h) == [];
  }

  /** On every legal history, the packets of a connection leave in the order they were queued, none is
      lost and none is sent twice: what was queued is what was sent and what still waits. */
  lemma {:induction false} FirstInFirstOut(log: seq<Event>, h: u16)
    requires Replay(log).legal
    ensures QueuedFor(log, h) == SentFor(log, h) + Only(Replay(log).waiting, h)
  {
    if log == [] {
    } else {
      var before, e := log[..|log| - 1], log[|log| - 1];
      var t := Replay(before);
      FirstInFirstOut(before, h);
      match e
      case Queued(data) =>
        OnlyConcat(t.waiting, [data], h);
        OnlyOne(data, h);
        OneMore(SentFor(before, h), Only(t.waiting, h), Only([data], h));
      case Sent(data, _) =>
        assert t.waiting == [data] + t.waiting[1..];
        OnlyConcat([data], t.waiting[1..], h);
        OnlyOne(data, h);
        OneMore(SentFor(before, h), Only([data], h), Only(t.waiting[1..], h));
      case Completed(n) =>
      case Purged(g) =>
        PurgeTakesItsOwn(t.waiting, g, h);
    }
  }

  lemma OneMore(a: seq<seq<byte>>, b: seq<seq<byte>>, c: seq<seq<byte>>)
    ensures a + b + c == a + (b + c)
    ensures a + [] == a
  {
  }

  // ----- whose the packets of a message are -----

  /** A message for a connection, and how it is cut into frames. */
  datatype Mail = Mail(h: handle, boundary: nat, broadcast: nat, payload: seq<byte>, cap: u16)

  predicate IsMail(m: Mail) {
    m.boundary < 4 && m.broadcast < 4 && m.cap > 0
  }

  /** The frames of messages for any connections, one message behind the other. */
  function FramesOfAll(mails: seq<Mail>): seq<seq<byte>>
    requires forall i :: 0 <= i < |mails| ==> IsMail(mails[i])
  {
    if mails == [] then []
    else
      var m := mails[0];
      assert IsMail(m);
      Frames(m.h, m.boundary, m.broadcast, m.payload, m.cap) + FramesOfAll(mails[1..])
  }

  /** The messages for other connections. */
  function ForOthers(mails: seq<Mail>, h: handle): (others: seq<Mail>)
    requires forall i :: 0 <= i < |mails| ==> IsMail(mails[i])
    ensures forall i :: 0 <= i < |others| ==> IsMail(others[i])
  {
    if mails == [] then []
    else
      assert IsMail(mails[0]);
      (if mails[0].h == h then [] else [mails[0]]) + ForOthers(mails[1..], h)
  }

  /** Every packet of a message belongs to its connection and to no other, whatever its flags. */
  lemma {:induction false} FramesBelong(m: Mail, g: u16)
    requires IsMail(m)
    ensures
      forall p :: p in Frames(m.h, m.boundary, m.broadcast, m.payload, m.cap) ==> (BelongsTo(p, g) <==> g == m.h)
    decreases |m.payload|
  {
    hide Frame, HandleOf;
    var cap := m.cap;
    if m.payload == [] {
    } else if |m.payload| <= cap {
      FrameSays(m.h, m.boundary, m.broadcast, m.payload);
    } else {
      FrameSays(m.h, m.boundary, m.broadcast, m.payload[..cap]);
      FramesBelong(m.(boundary := CONTINUATION, payload := m.payload[cap..]), g);
    }
  }

  lemma {:induction false} WithoutConcat(a: seq<seq<byte>>, b: seq<seq<byte>>, h: u16)
    ensures Without(a + b, h) == Without(a, h) + Without(b, h)
  {
    if a == [] {
      assert a + b == b;
      assert [] + Without(b, h) == Without(b, h);
    } else {
      assert (a + b)[1..] == a[1..] + b;
      WithoutConcat(a[1..], b, h);
    }
  }

  lemma {:induction false} WithoutAllOrNone(packets: seq<seq<byte>>, h: u16, all: bool)
    requires forall p :: p in packets ==> (BelongsTo(p, h) <==> all)
    ensures Without(packets, h) == if all then [] else packets
  {
    hide BelongsTo;
    if packets == [] {
    } else {
      assert packets[0] in packets;
      WithoutAllOrNone(packets[1..], h, all);
      assert [packets[0]] + packets[1..] == packets;
    }
  }

  /** A purge takes out the frames of all messages for its connection, and leaves those of the others in order. */
  lemma {:induction false} PurgeOfMessages(mails: seq<Mail>, h: handle)
    requires forall i :: 0 <= i < |mails| ==> IsMail(mails[i])
    ensures Without(FramesOfAll(mails), h) == FramesOfAll(ForOthers(mails, h))
  {
    if mails == [] {
    } else {
      var m, later := mails[0], mails[1..];
      assert IsMail(m);
      var frames := Frames(m.h, m.boundary, m.broadcast, m.payload, m.cap);
      FramesBelong(m, h);
      PurgeOfMessages(later, h);
      hide Frames, BelongsTo, Without;
      WithoutAllOrNone(frames, h, m.h == h);
      WithoutConcat(frames, FramesOfAll(later), h);
      if m.h == h {
        assert [] + ForOthers(later, h) == ForOthers(later, h);
        assert [] + FramesOfAll(ForOthers(later, h)) == FramesOfAll(ForOthers(later, h));
      } else {
        assert ([m] + ForOthers(later, h))[1..] == ForOthers(later, h);
      }
    }
  }
}
