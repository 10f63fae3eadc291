/** The table of commands that wait for an event, and how events find their way back
    (hci_dev.c:54-125, 389-437, 486-492; hci.c:27-65, 383-436). */
module PendingCommands {
  import opened Bytes
  import opened DataMatcher

  const SLOTS: nat := 8

  /** A waiting command: the pattern its event has, the client, and what the client wants called. */
  datatype Slot = Slot(rules: seq<Rule>, client: nat, tag: nat)

  predicate Free(s: Slot) {
    s.rules == []
  }

  function Occupied(slots: seq<Slot>): nat {
    if slots == [] then 0 else Occupied(slots[..|slots| - 1]) + if Free(slots[|slots| - 1]) then 0 else 1
  }

  function FirstFree(slots: seq<Slot>): (n: nat)
    ensures n <= |slots|
    ensures n < |slots| ==> Free(slots[n])
    ensures forall j :: 0 <= j < n ==> !Free(slots[j])
  {
    if slots == [] || Free(slots[0]) then 0 else 1 + FirstFree(slots[1..])
  }

  /** An equal pattern stands before the first free slot. */
  predicate SeenBefore(slots: seq<Slot>, rules: seq<Rule>) {
    exists j :: 0 <= j < FirstFree(slots) && slots[j].rules == rules
  }

  /** An equal pattern stands anywhere. */
  predicate Waiting(slots: seq<Slot>, rules: seq<Rule>) {
    exists j :: 0 <= j < |slots| && slots[j].rules == rules
  }

  lemma {:induction false} OccupiedUpdate(slots: seq<Slot>, i: nat, s: Slot)
    requires i < |slots|
    ensures Occupied(slots[i := s]) == Occupied(slots) - (if Free(slots[i]) then 0 else 1) + (if Free(s) then 0 else 1)
    decreases |slots|
  {
    var after, front := slots[i := s], slots[..|slots| - 1];
    if i == |slots| - 1 {
      assert after[..|slots| - 1] == front;
    } else {
      OccupiedUpdate(front, i, s);
      assert after[..|slots| - 1] == front[i := s];
    }
  }

  lemma {:induction false} OccupiedBounds(slots: seq<Slot>)
    ensures Occupied(slots) <= |slots|
    ensures Occupied(slots) == 0 <==> forall j :: 0 <= j < |slots| ==> Free(slots[j])
    ensures Occupied(slots) == |slots| <==> FirstFree(slots) == |slots|
  {
    if slots == [] {
    } else {
      OccupiedBounds(slots[..|slots| - 1]);
      FirstFreeIs(slots, FirstFree(slots[..|slots| - 1]));
    }
  }

  lemma {:induction false} FirstFreeIs(slots: seq<Slot>, n: nat)
    requires n <= |slots| && forall j :: 0 <= j < n ==> !Free(slots[j])
    ensures FirstFree(slots) >= n
    ensures n < |slots| && Free(slots[n]) ==> FirstFree(slots) == n
  {
  }

  // ----- equal patterns -----

  predicate Distinct(slots: seq<Slot>) {
    forall i, j :: 0 <= i < j < |slots| && !Free(slots[i]) && !Free(slots[j]) ==> slots[i].rules != slots[j].rules
  }

  predicate NoGap(slots: seq<Slot>) {
    forall i, j :: 0 <= i < j < |slots| && Free(slots[i]) ==> Free(slots[j])
  }

  /** The scan refuses every equal pattern exactly when no free slot stands before an occupied one. */
  lemma EqualsRefusedExactlyWithoutGap(slots: seq<Slot>)
    requires Distinct(slots)
    ensures (forall rules :: rules != [] && Waiting(slots, rules) ==> SeenBefore(slots, rules)) <==> NoGap(slots)
  {
    var f := FirstFree(slots);
    if NoGap(slots) {
      forall rules | rules != [] && Waiting(slots, rules)
        ensures SeenBefore(slots, rules)
      {
        var j :| 0 <= j < |slots| && slots[j].rules == rules;
        assert j < f;
      }
    } else {
      var i, j :| 0 <= i < j < |slots| && Free(slots[i]) && !Free(slots[j]);
      FirstFreeIs(slots, if i < f then i else f);
      assert f <= i;
      assert Waiting(slots, slots[j].rules) && !SeenBefore(slots, slots[j].rules);
    }
  }

  /** Taking the first free slot keeps the patterns distinct exactly when none equal was waiting. */
  lemma DistinctExactlyWithoutEqual(slots: seq<Slot>, rules: seq<Rule>)
    requires Distinct(slots) && FirstFree(slots) < |slots| && rules != []
    ensures
      var f := FirstFree(slots);
      Distinct(slots[f := slots[f].(rules := rules)]) <==> !Waiting(slots, rules)
  {
    var f := FirstFree(slots);
    var after := slots[f := slots[f].(rules := rules)];
    if Waiting(slots, rules) {
      var j :| 0 <= j < |slots| && slots[j].rules == rules;
      assert after[j].rules == after[f].rules && !Free(after[j]) && !Free(after[f]);
    }
  }

  // ----- routing -----

  ghost predicate IsPattern(rules: seq<Rule>) {
    exists r :: IsRequest(r) && rules == Pattern(r)
  }

  ghost predicate AllPatterns(slots: seq<Slot>) {
    forall i :: 0 <= i < |slots| && !Free(slots[i]) ==> IsPattern(slots[i].rules)
  }

  /** Who waits for what, with no regard to slots. */
  type Book = map<seq<Rule>, (nat, nat)>

  ghost predicate Represents(slots: seq<Slot>, book: Book) {
    && Distinct(slots) && AllPatterns(slots)
    && (forall i :: 0 <= i < |slots| && !Free(slots[i]) ==>
         slots[i].rules in book && book[slots[i].rules] == (slots[i].client, slots[i].tag))
    && (forall rules :: rules in book ==> rules != [] && Waiting(slots, rules))
  }

  lemma OneAccepts(a: seq<Rule>, b: seq<Rule>, event: seq<byte>)
    requires IsPattern(a) && IsPattern(b) && Accepts(a, event) && Accepts(b, event)
    ensures a == b
  {
    var x :| IsRequest(x) && a == Pattern(x);
    var y :| IsRequest(y) && b == Pattern(y);
    SameOrApart(x, y);
  }

  lemma RepresentsFilled(slots: seq<Slot>, book: Book, f: nat, s: Slot)
    requires Represents(slots, book) && f < |slots| && Free(slots[f])
    requires s.rules !in book && IsPattern(s.rules) && !Free(s)
    ensures Represents(slots[f := s], book[s.rules := (s.client, s.tag)])
  {
    var after, book' := slots[f := s], book[s.rules := (s.client, s.tag)];
    forall rules | rules in book'
      ensures rules != [] && Waiting(after, rules)
    {
      if rules == s.rules {
        assert after[f].rules == rules;
      } else {
        var j :| 0 <= j < |slots| && slots[j].rules == rules;
        assert after[j].rules == rules;
      }
    }
  }

  lemma RepresentsFreed(slots: seq<Slot>, book: Book, i: nat)
    requires Represents(slots, book) && i < |slots| && !Free(slots[i])
    ensures Represents(slots[i := slots[i].(rules := [])], book - {slots[i].rules})
  {
    var after, book' := slots[i := slots[i].(rules := [])], book - {slots[i].rules};
    forall rules | rules in book'
      ensures rules != [] && Waiting(after, rules)
    {
      var j :| 0 <= j < |slots| && slots[j].rules == rules;
      assert after[j].rules == rules;
    }
  }

  /** What taking the first free slot for a pattern does to the book. */
  lemma RegisterFacts(slots: seq<Slot>, book: Book, s: Slot)
    requires Represents(slots, book) && IsPattern(s.rules) && s.rules != []
    ensures Waiting(slots, s.rules) <==> s.rules in book
    ensures SeenBefore(slots, s.rules) ==> s.rules in book
    ensures
      var f := FirstFree(slots);
      f < |slots| ==>
        if s.rules in book then !Distinct(slots[f := s])
        else Represents(slots[f := s], book[s.rules := (s.client, s.tag)])
  {
    var f := FirstFree(slots);
    if s.rules in book {
      assert Waiting(slots, s.rules);
      if f < |slots| {
        EqualPairs(slots, f, s);
      }
    } else if f < |slots| {
      RepresentsFilled(slots, book, f, s);
    }
  }

  lemma EqualPairs(slots: seq<Slot>, f: nat, s: Slot)
    requires f < |slots| && Free(slots[f]) && Waiting(slots, s.rules) && s.rules != []
    ensures !Distinct(slots[f := s])
  {
    var after := slots[f := s];
    var j :| 0 <= j < |slots| && slots[j].rules == s.rules;
    assert after[j].rules == after[f].rules && !Free(after[j]) && !Free(after[f]);
  }

  /** An equal pattern waits, but only behind the first free slot. */
  predicate Sneaks(slots: seq<Slot>, rules: seq<Rule>) {
    Waiting(slots, rules) && !SeenBefore(slots, rules)
  }

  /** The new slot stands in the first free place. */
  predicate Fills(before: seq<Slot>, after: seq<Slot>, s: Slot) {
    FirstFree(before) < |before| && after == before[FirstFree(before) := s]
  }

  lemma StillThere(before: seq<Slot>, after: seq<Slot>, s: Slot, i: nat)
    requires i < |before| && !Free(before[i]) && (after == before || Fills(before, after, s))
    ensures |after| == |before| && after[i] == before[i]
  {
    hide FirstFree;
  }

  lemma Patterned(r: Request)
    requires IsRequest(r)
    ensures IsPattern(Pattern(r)) && Pattern(r) != []
  {
  }

  /** Counts and places when a slot is filled in two steps, first the pattern and then the rest. */
  lemma FilledTwice(before: seq<Slot>, i: nat, s: Slot)
    requires i < |before| && Free(before[i]) && s.rules != []
    ensures before[i := before[i].(rules := s.rules)][i := s] == before[i := s]
    ensures Occupied(before[i := s]) == Occupied(before) + 1
  {
    OccupiedUpdate(before, i, s);
  }

  class Table {
    const slots: array<Slot>
    var pending: u16
    /** What was called: client, tag and event. */
    ghost var calls: seq<((nat, nat), seq<byte>)>
    ghost var book: Book

    ghost predicate Valid()
      reads this, slots
    {
      slots.Length == SLOTS && pending == Occupied(slots[..])
    }

    /** No two equal patterns wait, all are patterns of the library, and the book tells who waits. */
    ghost predicate Routes()
      reads this, slots
    {
      Valid() && Represents(slots[..], book)
    }

    constructor ()
      ensures Routes() && pending == 0 && fresh(slots) && calls == [] && book == map[]
      ensures forall k :: 0 <= k < SLOTS ==> Free(slots[k])
    {
      slots := new Slot[SLOTS](_ => Slot([], 0, 0));
      pending, calls, book := 0, [], map[];
      new;
      OccupiedBounds(slots[..]);
    }

    /** Looks for the first free slot, and refuses a pattern it meets on the way. */
    method Scan(rules: seq<Rule>) returns (i: int)
      requires slots.Length == SLOTS && rules != []
      ensures i < 0 <==> FirstFree(slots[..]) == SLOTS || SeenBefore(slots[..], rules)
      ensures i >= 0 ==> i == FirstFree(slots[..])
    {
      for k := 0 to SLOTS
        invariant forall j :: 0 <= j < k ==> !Free(slots[j]) && slots[j].rules != rules
      {
        if slots[k].rules == [] {
          FirstFreeIs(slots[..], k);
          return k;
        } else if slots[k].rules == rules {
          FirstFreeIs(slots[..], k + 1);
          assert slots[..][k].rules == rules;
          return -1;
        }
      }
      FirstFreeIs(slots[..], SLOTS);
      return -1;
    }

    /** Takes a slot for a pattern. It never takes an occupied one, and fails only if all are occupied or an
        equal pattern was met. */
    method Alloc(rules: seq<Rule>) returns (i: int)
      requires Valid() && rules != []
      modifies this`pending, slots
      ensures Valid()
      ensures i < 0 <==> old(pending) == SLOTS || SeenBefore(old(slots[..]), rules)
      ensures i < 0 ==> slots[..] == old(slots[..]) && pending == old(pending)
      ensures i >= 0 ==> i == FirstFree(old(slots[..])) < SLOTS && Free(old(slots[..])[i])
      ensures i >= 0 ==> pending == old(pending) + 1
      ensures i >= 0 ==> slots[..] == old(slots[..])[i := old(slots[..])[i].(rules := rules)]
    {
      OccupiedBounds(slots[..]);
      i := -1;
      if pending == 0 {
        FirstFreeIs(slots[..], 0);
        i := 0;
      } else if pending < SLOTS {
        i := Scan(rules);
      }
      if i >= 0 {
        OccupiedUpdate(slots[..], i, slots[i].(rules := rules));
        slots[i] := slots[i].(rules := rules);
        pending := pending + 1;
      }
    }

    method FreeCommand(i: nat)
      requires Valid() && i < SLOTS && !Free(slots[i])
      modifies this`pending, slots
      ensures Valid() && pending == old(pending) - 1
      ensures slots[..] == old(slots[..])[i := old(slots[..])[i].(rules := [])]
    {
      OccupiedUpdate(slots[..], i, slots[i].(rules := []));
      OccupiedBounds(slots[..]);
      slots[i] := slots[i].(rules := []);
      pending := pending - 1;
    }

    /** A removed client owns no slot afterwards; the slots of the others are untouched. */
    method Dispose(client: nat)
      requires Valid()
      modifies this`pending, slots
      ensures Valid()
      ensures forall j :: 0 <= j < SLOTS ==>
                slots[j] == if old(slots[j]).client == client then old(slots[j]).(rules := []) else old(slots[j])
    {
      for k := 0 to SLOTS
        invariant Valid()
        invariant forall j :: 0 <= j < SLOTS ==>
                    slots[j] ==
                    if j < k && old(slots[j]).client == client then old(slots[j]).(rules := []) else old(slots[j])
      {
        if slots[k].rules != [] && slots[k].client == client {
          FreeCommand(k);
        }
      }
    }

    /** The first waiting command whose pattern the event has. */
    method Find(event: seq<byte>) returns (i: int)
      requires slots.Length == SLOTS
      ensures i < SLOTS
      ensures i >= 0 ==> !Free(slots[i]) && Accepts(slots[i].rules, event)
      ensures forall j :: 0 <= j < (if i < 0 then SLOTS else i) ==> Free(slots[j]) || !Accepts(slots[j].rules, event)
    {
      for k := 0 to SLOTS
        invariant forall j :: 0 <= j < k ==> Free(slots[j]) || !Accepts(slots[j].rules, event)
      {
        if slots[k].rules != [] && Accepts(slots[k].rules, event) {
          return k;
        }
      }
      return -1;
    }

    // ----- commands and their events -----

    /** Registers a command. If no equal pattern waits, that fails only if all slots are taken. An equal pattern
        that waits is refused, unless it stands behind the first free slot: then two equal patterns wait, and
        the book no longer tells their commands apart. */
    method Issue(client: nat, tag: nat, request: Request) returns (ok: bool)
      requires Routes() && IsRequest(request)
      modifies this`pending, this`book, slots
      ensures Valid() && (ok <==> old(pending) < SLOTS && !SeenBefore(old(slots[..]), Pattern(request)))
      ensures ok ==> Fills(old(slots[..]), slots[..], Slot(Pattern(request), client, tag))
      ensures !ok ==> slots[..] == old(slots[..]) && Routes() && book == old(book)
      ensures Pattern(request) !in old(book) ==> Routes() && (ok <==> old(pending) < SLOTS)
      ensures ok && Pattern(request) !in old(book) ==> book == old(book)[Pattern(request) := (client, tag)]
      ensures ok && Pattern(request) in old(book) ==> !Distinct(slots[..])
      ensures pending == if ok then old(pending) + 1 else old(pending)
    {
      hide *;
      ok := Register(client, tag, request);
    }

    method Register(client: nat, tag: nat, request: Request) returns (ok: bool)
      requires Routes() && IsRequest(request)
      modifies this`pending, this`book, slots
      ensures Valid() && (ok <==> old(pending) < SLOTS && !SeenBefore(old(slots[..]), Pattern(request)))
      ensures ok ==> Fills(old(slots[..]), slots[..], Slot(Pattern(request), client, tag))
      ensures !ok ==> slots[..] == old(slots[..]) && Routes() && book == old(book)
      ensures Pattern(request) !in old(book) ==> Routes() && (ok <==> old(pending) < SLOTS)
      ensures ok && Pattern(request) !in old(book) ==> book == old(book)[Pattern(request) := (client, tag)]
      ensures ok && Pattern(request) in old(book) ==> !Distinct(slots[..])
      ensures pending == if ok then old(pending) + 1 else old(pending)
    {
      hide Occupied, FirstFree, SeenBefore, Waiting, Represents, Distinct, IsPattern, IsRequest, Pattern, Free;
      ghost var before, s := slots[..], Slot(Pattern(request), client, tag);
      Patterned(request);
      OccupiedBounds(before);
      RegisterFacts(before, book, s);
      var i := Alloc(Pattern(request));
      ok := i >= 0;
      if ok {
        FilledTwice(before, i, s);
        slots[i] := slots[i].(client := client, tag := tag);
        assert slots[..] == before[i := s];
        if s.rules !in book {
          book := book[s.rules := (client, tag)];
        }
      }
    }

    method Remove(i: nat)
      requires Valid() && i < SLOTS && !Free(slots[i])
      modifies this`pending, this`book, slots
      ensures Valid() && book == old(book) - {old(slots[i]).rules} && pending == old(pending) - 1
      ensures old(Routes()) ==> Routes()
      ensures slots[..] == old(slots[..])[i := old(slots[i]).(rules := [])]
    {
      hide Represents, Occupied;
      if Routes() {
        RepresentsFreed(slots[..], book, i);
      }
      book := book - {slots[i].rules};
      FreeCommand(i);
    }

    lemma BookedIsWaiting(r: Request)
      requires Routes() && IsRequest(r)
      ensures Pattern(r) in book <==> Waiting(slots[..], Pattern(r))
      ensures SeenBefore(slots[..], Pattern(r)) ==> Pattern(r) in book
    {
      hide Represents, Waiting, SeenBefore, Pattern, IsRequest, IsPattern;
      Patterned(r);
      RegisterFacts(slots[..], book, Slot(Pattern(r), 0, 0));
    }

    /** The event of a waiting command reaches the client that issued the command, once, whatever slot it is
        in; an event nobody waits for changes nothing. */
    method DeliverReply(event: seq<byte>)
      requires Routes()
      modifies this`pending, this`book, this`calls, slots
      ensures Routes()
      ensures forall rules :: rules in old(book) && Accepts(rules, event) ==>
                calls == old(calls) + [(old(book)[rules], event)] && book == old(book) - {rules} &&
                  pending == old(pending) - 1
      ensures (forall rules :: rules in old(book) ==> !Accepts(rules, event)) ==>
                calls == old(calls) && book == old(book) && pending == old(pending) && slots[..] == old(slots[..])
      ensures forall k :: 0 <= k < SLOTS && !Free(old(slots[k])) && Accepts(old(slots[k]).rules, event) ==>
        slots[..] == old(slots[..])[k := old(slots[k]).(rules := [])]
    {
      hide Represents, Occupied, Accepts;
      var i := Find(event);
      if i >= 0 {
        ghost var s := slots[i];
        OnlyThisOne(event, i);
        Remove(i);
        calls := calls + [((s.client, s.tag), event)];
      } else {
        NobodyWaits(event);
      }
    }

    lemma OnlyThisOne(event: seq<byte>, i: nat)
      requires Routes() && i < SLOTS && !Free(slots[i]) && Accepts(slots[i].rules, event)
      ensures slots[i].rules in book && book[slots[i].rules] == (slots[i].client, slots[i].tag)
      ensures forall rules :: rules in book && Accepts(rules, event) ==> rules == slots[i].rules
      ensures forall k :: 0 <= k < SLOTS && !Free(slots[k]) && Accepts(slots[k].rules, event) ==> k == i
    {
      assert slots[..][i] == slots[i];
      forall k | 0 <= k < SLOTS && !Free(slots[k]) && Accepts(slots[k].rules, event)
        ensures k == i
      {
        assert slots[..][k] == slots[k];
        OneAccepts(slots[k].rules, slots[i].rules, event);
      }
      forall rules | rules in book && Accepts(rules, event)
        ensures rules == slots[i].rules
      {
        var j :| 0 <= j < |slots[..]| && slots[..][j].rules == rules;
        OneAccepts(rules, slots[i].rules, event);
      }
    }

    lemma NobodyWaits(event: seq<byte>)
      requires Routes() && forall j :: 0 <= j < SLOTS ==> Free(slots[j]) || !Accepts(slots[j].rules, event)
      ensures forall rules :: rules in book ==> !Accepts(rules, event)
    {
      forall rules | rules in book
        ensures !Accepts(rules, event)
      {
        var j :| 0 <= j < |slots[..]| && slots[..][j].rules == rules;
        assert slots[j].rules == rules;
      }
    }

    /** The status of a command with a second phase: on success the client waits for the final event from
        then on. The slot of the command itself is given back only after that, so the second phase is lost
        exactly when all slots were occupied or an equal pattern was met before a free one. Only an equal
        pattern behind a free slot spoils the book. */
    method DeliverStatus(event: seq<byte>, success: bool, next: Request)
      requires Routes() && IsRequest(next)
      modifies this`pending, this`book, this`calls, slots
      ensures Valid()
      ensures !(success && old(pending) < SLOTS && Sneaks(old(slots[..]), Pattern(next))) ==> Routes()
      ensures forall rules :: rules in old(book) && Accepts(rules, event) ==>
        calls == old(calls) + [(old(book)[rules], event)]
      ensures !(success && old(pending) < SLOTS && Sneaks(old(slots[..]), Pattern(next))) ==>
                forall rules :: rules in old(book) && Accepts(rules, event) ==>
                book == if success && old(pending) < SLOTS && Pattern(next) !in old(book)
                        then old(book)[Pattern(next) := old(book)[rules]] - {rules}
                        else old(book) - {rules}
      ensures (forall rules :: rules in old(book) ==> !Accepts(rules, event)) ==>
                calls == old(calls) && book == old(book) && slots[..] == old(slots[..])
    {
      hide Represents, Occupied, Accepts, IsRequest, Pattern, FirstFree, SeenBefore, Waiting, Distinct;
      var i := Find(event);
      if i >= 0 {
        var client, tag := slots[i].client, slots[i].tag;
        OnlyThisOne(event, i);
        ghost var before := slots[..];
        BookedIsWaiting(next);
        if success {
          var _ := Register(client, tag, next);
          StillThere(before, slots[..], Slot(Pattern(next), client, tag), i);
        }
        Remove(i);
        calls := calls + [((client, tag), event)];
      } else {
        NobodyWaits(event);
      }
    }

    /** A client that goes away waits for nothing any more, and nobody else is affected. */
    method RemoveClient(client: nat)
      requires Routes()
      modifies this`pending, this`book, slots
      ensures Routes()
      ensures book == map rules | rules in old(book) && old(book)[rules].0 != client :: old(book)[rules]
    {
      ghost var before, was := slots[..], book;
      Dispose(client);
      book := map rules | rules in was && was[rules].0 != client :: was[rules];
      ClientGone(before, slots[..], was, book, client);
    }

    lemma ClientGone(before: seq<Slot>, after: seq<Slot>, was: Book, now: Book, client: nat)
      requires Represents(before, was) && |after| == |before|
      requires forall j :: 0 <= j < |before| ==>
                 after[j] == if before[j].client == client then before[j].(rules := []) else before[j]
      requires now == map rules | rules in was && was[rules].0 != client :: was[rules]
      ensures Represents(after, now)
    {
      forall rules | rules in now
        ensures rules != [] && Waiting(after, rules)
      {
        var j :| 0 <= j < |before| && before[j].rules == rules;
        assert after[j].rules == rules;
      }
    }
  }

  // ----- runs that go wrong -----

  const FIRST := Request(COMMAND_COMPLETE, [1, 0x0c])
  const SECOND := Request(COMMAND_COMPLETE, [2, 0x0c])
  const FIRST_REPLY: seq<byte> := [COMMAND_COMPLETE, 4, 1, 1, 0x0c, 0]
  const SECOND_REPLY: seq<byte> := [COMMAND_COMPLETE, 4, 1, 2, 0x0c, 0]

  lemma ExamplePatterns()
    ensures IsRequest(FIRST) && IsRequest(SECOND) && Pattern(FIRST) != Pattern(SECOND)
    ensures Accepts(Pattern(FIRST), FIRST_REPLY) && Accepts(Pattern(SECOND), SECOND_REPLY)
  {
    SameOrApart(FIRST, SECOND);
    assert FIRST_REPLY[0..1] == [COMMAND_COMPLETE] && FIRST_REPLY[3..5] == FIRST.key;
    assert SECOND_REPLY[0..1] == [COMMAND_COMPLETE] && SECOND_REPLY[3..5] == SECOND.key;
  }

  /** The first free slot of a table of which only the first places are looked at. */
  lemma FirstPlaces(slots: seq<Slot>)
    requires |slots| == SLOTS
    ensures Free(slots[0]) ==> FirstFree(slots) == 0
    ensures !Free(slots[0]) && Free(slots[1]) ==> FirstFree(slots) == 1
  {
    FirstFreeIs(slots, if Free(slots[0]) then 0 else 1);
  }

  /** Two commands wait, and the reply to the first one frees the first slot. */
  method LeaveGap() returns (t: Table)
    ensures fresh(t) && fresh(t.slots) && t.Routes() && t.pending == 1 && Pattern(SECOND) in t.book
    ensures Free(t.slots[0]) && t.slots[1] == Slot(Pattern(SECOND), 2, 0)
  {
    hide IsRequest, Pattern, Accepts, Occupied, FirstFree, SeenBefore, Represents;
    ExamplePatterns();
    t := new Table();
    FirstPlaces(t.slots[..]);
    var _ := t.Issue(1, 0, FIRST);
    FirstPlaces(t.slots[..]);
    assert t.slots[0] == t.slots[..][0] && t.slots[1] == t.slots[..][1];
    var _ := t.Issue(2, 0, SECOND);
    assert t.slots[0] == t.slots[..][0] && t.slots[1] == t.slots[..][1];
    t.DeliverReply(FIRST_REPLY);
    assert t.slots[0] == t.slots[..][0] && t.slots[1] == t.slots[..][1];
  }

  /** Issued again, the command that waits in the second slot gets in twice, and the reply to the one of
      client 2 reaches client 3. */
  method EqualGetsInThroughGap() returns (t: Table, reached: nat)
    ensures t.Valid() && !Distinct(t.slots[..])
    ensures t.slots[0] == Slot(Pattern(SECOND), 3, 0) && t.slots[1] == Slot(Pattern(SECOND), 2, 0) && reached == 3
  {
    hide IsRequest, Accepts, Occupied, FirstFree, Represents, Distinct;
    ExamplePatterns();
    t := LeaveGap();
    FirstPlaces(t.slots[..]);
    assert t.slots[0] == t.slots[..][0] && t.slots[1] == t.slots[..][1];
    var _ := t.Issue(3, 0, SECOND);
    assert t.slots[0] == t.slots[..][0] && t.slots[1] == t.slots[..][1];
    hide Pattern;
    var i := t.Find(SECOND_REPLY);
    assert !(Free(t.slots[0]) || !Accepts(t.slots[0].rules, SECOND_REPLY));
    reached := t.slots[i].client;
  }

  function Nth(k: byte): Request {
    Request(COMMAND_STATUS, [k, 4])
  }

  const NEXT := Request(CONNECTION_COMPLETE, [1, 2, 3, 4, 5, 6])
  const STATUS: seq<byte> := [COMMAND_STATUS, 4, 0, 1, 0, 4]

  lemma NthApart(j: byte, k: byte)
    ensures IsRequest(Nth(k)) && IsRequest(NEXT) && Pattern(Nth(k)) != Pattern(NEXT)
    ensures Pattern(Nth(j)) == Pattern(Nth(k)) ==> j == k
    ensures Accepts(Pattern(Nth(0)), STATUS)
  {
    SameOrApart(Nth(j), Nth(k));
    SameOrApart(Nth(k), NEXT);
    assert Nth(j).key[0] == j && Nth(k).key[0] == k;
    assert STATUS[0..1] == [COMMAND_STATUS] && STATUS[4..6] == Nth(0).key;
  }

  ghost predicate OnlyNth(book: Book, n: nat) {
    forall rules :: rules in book ==> exists j: byte :: j < n && rules == Pattern(Nth(j))
  }

  /** With all slots taken the second phase of a command is lost: its status is delivered as a success, and the
      client waits for nothing more. */
  method SecondPhaseIsLost() returns (t: Table)
    ensures t.Routes() && t.calls == [((7, 0), STATUS)] && Pattern(NEXT) !in t.book
  {
    hide IsRequest, Pattern, Accepts, Occupied, FirstFree, SeenBefore, Represents, Fills, Nth;
    t := new Table();
    for k := 0 to SLOTS
      invariant fresh(t) && fresh(t.slots) && t.Routes() && t.pending == k && t.calls == [] && OnlyNth(t.book, k)
      invariant k > 0 ==> Pattern(Nth(0)) in t.book && t.book[Pattern(Nth(0))] == (7, 0)
    {
      NotYet(t.book, k, (7 + k, k));
      var _ := t.Issue(7 + k, k, Nth(k));
    }
    NthApart(0, 0);
    NeverNext(t.book, SLOTS);
    t.DeliverStatus(STATUS, true, NEXT);
  }

  lemma NotYet(book: Book, k: byte, v: (nat, nat))
    requires OnlyNth(book, k)
    ensures IsRequest(Nth(k)) && Pattern(Nth(k)) !in book
    ensures OnlyNth(book[Pattern(Nth(k)) := v], k + 1)
    ensures k > 0 ==> Pattern(Nth(0)) != Pattern(Nth(k))
  {
    hide IsRequest, Pattern, Nth;
    NthApart(0, k);
    forall j: byte
      ensures Pattern(Nth(j)) == Pattern(Nth(k)) ==> j == k
    {
      NthApart(j, k);
    }
  }

  lemma NeverNext(book: Book, n: nat)
    requires OnlyNth(book, n)
    ensures Pattern(NEXT) !in book
  {
    hide IsRequest, Pattern, Nth;
    forall j: byte
      ensures Pattern(Nth(j)) != Pattern(NEXT)
    {
      NthApart(j, j);
    }
  }
}
