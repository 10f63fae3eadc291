/** Runs of the table of waiting commands: commands, their events and clients that go away, in any order. */
module PendingRuns {
  import opened Bytes
  import opened DataMatcher
  import opened PendingCommands

  datatype Step =
    | Issues(client: nat, tag: nat, request: Request)
    | Replies(event: seq<byte>)
    | StatusComes(event: seq<byte>, success: bool, next: Request)
    | ClientGoes(client: nat)

  type Call = ((nat, nat), seq<byte>)

  /** Who waits for what, and what was called so far. There are no slots here. */
  datatype Desk = Desk(book: Book, calls: seq<Call>)

  ghost predicate WaitedFor(book: Book, event: seq<byte>) {
    exists rules :: rules in book && Accepts(rules, event)
  }

  ghost function Waiter(book: Book, event: seq<byte>): (rules: seq<Rule>)
    requires WaitedFor(book, event)
    ensures rules in book && Accepts(rules, event)
  {
    var rules :| rules in book && Accepts(rules, event);
    rules
  }

  /** The client that waits for the event is called with it, and waits no longer. */
  ghost function Answered(d: Desk, event: seq<byte>): Desk {
    if WaitedFor(d.book, event) then
      var rules := Waiter(d.book, event);
      Desk(d.book - {rules}, d.calls + [(d.book[rules], event)])
    else d
  }

  /** There is room, and nobody waits for the same. */
  ghost predicate HasRoomFor(book: Book, r: Request) {
    |book| < SLOTS && Pattern(r) !in book
  }

  ghost function Stepped(d: Desk, step: Step): Desk {
    match step
    case Issues(client, tag, request) =>
      if HasRoomFor(d.book, request) then d.(book := d.book[Pattern(request) := (client, tag)]) else d
    case Replies(event) => Answered(d, event)
    case StatusComes(event, success, next) =>
      if success && HasRoomFor(d.book, next) && WaitedFor(d.book, event) then
        var rules := Waiter(d.book, event);
        Desk(d.book[Pattern(next) := d.book[rules]] - {rules}, d.calls + [(d.book[rules], event)])
      else Answered(d, event)
    case ClientGoes(client) =>
      d.(book := map rules | rules in d.book && d.book[rules].0 != client :: d.book[rules])
  }

  ghost function AfterSteps(steps: seq<Step>): Desk {
    if steps == [] then Desk(map[], []) else Stepped(AfterSteps(steps[..|steps| - 1]), steps[|steps| - 1])
  }

  lemma OneMoreStep(steps: seq<Step>, i: nat)
    requires i < |steps|
    ensures AfterSteps(steps[..i + 1]) == Stepped(AfterSteps(steps[..i]), steps[i])
  {
    hide Stepped;
    assert steps[..i + 1][..i] == steps[..i];
  }

  // ----- the book has a page for every occupied slot -----

  function Patterns(slots: seq<Slot>): set<seq<Rule>> {
    set i | 0 <= i < |slots| && !Free(slots[i]) :: slots[i].rules
  }

  lemma {:induction false} PatternsCount(slots: seq<Slot>)
    requires Distinct(slots)
    ensures |Patterns(slots)| == Occupied(slots)
  {
    if slots == [] {
    } else {
      LastPattern(slots);
      hide Distinct, Patterns, Free;
      PatternsCount(slots[..|slots| - 1]);
    }
  }

  lemma LastPattern(slots: seq<Slot>)
    requires Distinct(slots) && slots != []
    ensures
      var front, last := slots[..|slots| - 1], slots[|slots| - 1];
      && Distinct(front)
      && (!Free(last) ==> last.rules !in Patterns(front))
      && Patterns(slots) == if Free(last) then Patterns(front) else Patterns(front) + {last.rules}
  {
    var front, last := slots[..|slots| - 1], slots[|slots| - 1];
    forall rules | rules in Patterns(slots)
      ensures rules in Patterns(front) || (!Free(last) && rules == last.rules)
    {
      var i :| 0 <= i < |slots| && !Free(slots[i]) && slots[i].rules == rules;
      if i < |front| {
        assert front[i].rules == rules && !Free(front[i]);
      }
    }
  }

  lemma BookCount(slots: seq<Slot>, book: Book)
    requires Represents(slots, book)
    ensures |book| == Occupied(slots)
  {
    hide Occupied;
    PatternsCount(slots);
    forall rules | rules in book
      ensures rules in Patterns(slots)
    {
      var j :| 0 <= j < |slots| && slots[j].rules == rules;
      assert !Free(slots[j]);
    }
    assert book.Keys == Patterns(slots);
    assert |book| == |book.Keys|;
  }

  // ----- the table does what the desk does -----

  /** The step registers a pattern although an equal one waits, behind the first free slot. */
  predicate SneaksIn(slots: seq<Slot>, step: Step) {
    && Occupied(slots) < SLOTS
    && match step
       case Issues(_, _, request) => Sneaks(slots, Pattern(request))
       case StatusComes(_, success, next) => success && Sneaks(slots, Pattern(next))
       case Replies(_) => false
       case ClientGoes(_) => false
  }

  /** Commands are those of the library. */
  ghost predicate OfLibrary(step: Step) {
    (step.Issues? ==> IsRequest(step.request)) && (step.StatusComes? ==> IsRequest(step.next))
  }

  ghost predicate At(t: Table, d: Desk)
    reads t, t.slots
  {
    t.Routes() && d == Desk(t.book, t.calls)
  }

  lemma TableParts(t: Table, d: Desk)
    requires At(t, d)
    ensures t.Routes() && t.Valid() && d.book == t.book && d.calls == t.calls
    ensures t.pending == Occupied(t.slots[..]) == |t.book|
  {
    hide Represents;
    BookCount(t.slots[..], t.book);
  }

  lemma AnsweredIs(d: Desk, event: seq<byte>)
    ensures
      WaitedFor(d.book, event) ==>
        var rules := Waiter(d.book, event);
        Answered(d, event) == Desk(d.book - {rules}, d.calls + [(d.book[rules], event)])
    ensures !WaitedFor(d.book, event) ==>
      Answered(d, event) == d && forall rules :: rules in d.book ==> !Accepts(rules, event)
  {
  }

  method PerformIssue(t: Table, ghost d: Desk, client: nat, tag: nat, request: Request)
    requires At(t, d) && IsRequest(request) && !SneaksIn(t.slots[..], Issues(client, tag, request))
    modifies t, t.slots
    ensures At(t, Stepped(d, Issues(client, tag, request)))
  {
    hide IsRequest, Pattern, Occupied, SeenBefore, Waiting, Represents, Distinct, IsPattern;
    TableParts(t, d);
    t.BookedIsWaiting(request);
    var _ := t.Issue(client, tag, request);
  }

  method PerformReply(t: Table, ghost d: Desk, event: seq<byte>)
    requires At(t, d)
    modifies t, t.slots
    ensures At(t, Stepped(d, Replies(event)))
  {
    hide Occupied, Represents, Accepts, Free;
    TableParts(t, d);
    AnsweredIs(d, event);
    t.DeliverReply(event);
  }

  method PerformStatus(t: Table, ghost d: Desk, event: seq<byte>, success: bool, next: Request)
    requires At(t, d) && IsRequest(next) && !SneaksIn(t.slots[..], StatusComes(event, success, next))
    modifies t, t.slots
    ensures At(t, Stepped(d, StatusComes(event, success, next)))
  {
    hide IsRequest, Pattern, Occupied, SeenBefore, Waiting, Represents, Distinct, IsPattern, Accepts, Free;
    TableParts(t, d);
    AnsweredIs(d, event);
    t.DeliverStatus(event, success, next);
  }

  method PerformGone(t: Table, ghost d: Desk, client: nat)
    requires At(t, d)
    modifies t, t.slots
    ensures At(t, Stepped(d, ClientGoes(client)))
  {
    hide Occupied, Represents;
    TableParts(t, d);
    t.RemoveClient(client);
  }

  method Perform(t: Table, ghost d: Desk, step: Step)
    requires At(t, d) && OfLibrary(step) && !SneaksIn(t.slots[..], step)
    modifies t, t.slots
    ensures At(t, Stepped(d, step))
  {
    hide IsRequest, SneaksIn, Stepped, At;
    match step
    case Issues(client, tag, request) => PerformIssue(t, d, client, tag, request);
    case Replies(event) => PerformReply(t, d, event);
    case StatusComes(event, success, next) => PerformStatus(t, d, event, success, next);
    case ClientGoes(client) => PerformGone(t, d, client);
  }

  /** On every run, as long as no pattern sneaks in, the eight slots do exactly what the desk without slots does:
      the same clients wait for the same events, and the same calls are made in the same order. The run stops in
      front of a step that would let an equal pattern in. */
  method Run(steps: seq<Step>) returns (t: Table, done: nat)
    requires forall i :: 0 <= i < |steps| ==> OfLibrary(steps[i])
    ensures t.Routes() && done <= |steps| && Desk(t.book, t.calls) == AfterSteps(steps[..done])
    ensures done < |steps| ==> SneaksIn(t.slots[..], steps[done])
    ensures t.pending == |t.book| <= SLOTS
  {
    hide *;
    t := new Table();
    done := 0;
    NothingDone(t, steps);
    while done < |steps|
      invariant done <= |steps| && fresh(t) && fresh(t.slots) && At(t, AfterSteps(steps[..done]))
    {
      if SneaksIn(t.slots[..], steps[done]) {
        break;
      }
      OneMoreStep(steps, done);
      Perform(t, AfterSteps(steps[..done]), steps[done]);
      done := done + 1;
    }
    TableParts(t, AfterSteps(steps[..done]));
    AtMostAll(t);
  }

  lemma NothingDone(t: Table, steps: seq<Step>)
    requires t.Routes() && t.calls == [] && t.book == map[]
    ensures At(t, AfterSteps(steps[..0]))
  {
  }

  lemma AtMostAll(t: Table)
    requires t.Valid()
    ensures t.pending <= SLOTS
    ensures forall d :: At(t, d) ==> d == Desk(t.book, t.calls)
  {
    OccupiedBounds(t.slots[..]);
  }

  // ----- what the desk promises -----

  /** All patterns of the book are those of commands of the library, so an event has one waiter at most. */
  ghost predicate OnePerEvent(book: Book) {
    forall rules :: rules in book ==> IsPattern(rules)
  }

  lemma {:induction false} DeskHasPatterns(steps: seq<Step>)
    requires forall i :: 0 <= i < |steps| ==> OfLibrary(steps[i])
    ensures OnePerEvent(AfterSteps(steps).book)
  {
    if steps == [] {
    } else {
      var n := |steps| - 1;
      DeskHasPatterns(steps[..n]);
      var step := steps[n];
      hide IsRequest, Pattern, Accepts;
      match step
      case Issues(_, _, request) => Patterned(request);
      case StatusComes(_, _, next) => Patterned(next);
      case Replies(_) =>
      case ClientGoes(_) =>
    }
  }

  /** The step neither answers that command nor removes its client. */
  ghost predicate LeavesWaiting(step: Step, client: nat, rules: seq<Rule>) {
    match step
    case Issues(_, _, _) => true
    case Replies(event) => !Accepts(rules, event)
    case StatusComes(event, _, _) => !Accepts(rules, event)
    case ClientGoes(other) => other != client
  }

  lemma StillWaits(d: Desk, step: Step, who: (nat, nat), rules: seq<Rule>)
    requires rules in d.book && d.book[rules] == who && LeavesWaiting(step, who.0, rules)
    ensures rules in Stepped(d, step).book && Stepped(d, step).book[rules] == who
  {
    hide Accepts, Pattern;
  }

  lemma {:induction false} WaitsOn(steps: seq<Step>, i: nat, n: nat, who: (nat, nat), rules: seq<Rule>)
    requires i <= n <= |steps|
    requires rules in AfterSteps(steps[..i]).book && AfterSteps(steps[..i]).book[rules] == who
    requires forall j :: i <= j < n ==> LeavesWaiting(steps[j], who.0, rules)
    ensures rules in AfterSteps(steps[..n]).book && AfterSteps(steps[..n]).book[rules] == who
    decreases n
  {
    hide Stepped, LeavesWaiting, AfterSteps;
    if n > i {
      WaitsOn(steps, i, n - 1, who, rules);
      OneMoreStep(steps, n - 1);
      StillWaits(AfterSteps(steps[..n - 1]), steps[n - 1], who, rules);
    }
  }

  /** The step brings an event of that pattern. */
  ghost predicate Brings(step: Step, rules: seq<Rule>) {
    (step.Replies? || step.StatusComes?) && Accepts(rules, step.event)
  }

  /** A command that found room is answered to the client that issued it, exactly once: by the first event that has
      its pattern, if the client is not removed before, whatever others do in between. If the event is the status of
      a command with a second phase, the same client waits for the event of that from then on. */
  lemma EventReachesIssuer(steps: seq<Step>, i: nat, n: nat)
    requires i < n < |steps| && forall j :: 0 <= j < |steps| ==> OfLibrary(steps[j])
    requires steps[i].Issues? && HasRoomFor(AfterSteps(steps[..i]).book, steps[i].request)
    requires forall j :: i < j < n ==> LeavesWaiting(steps[j], steps[i].client, Pattern(steps[i].request))
    requires Brings(steps[n], Pattern(steps[i].request))
    ensures
      var before, after := AfterSteps(steps[..n]), AfterSteps(steps[..n + 1]);
      var who, rules := (steps[i].client, steps[i].tag), Pattern(steps[i].request);
      && after.calls == before.calls + [(who, steps[n].event)]
      && rules in before.book && rules !in after.book
      && (steps[n].Replies? ==> after.book == before.book - {rules})
      && (steps[n].StatusComes? && steps[n].success && HasRoomFor(before.book, steps[n].next) ==>
           Pattern(steps[n].next) in after.book && after.book[Pattern(steps[n].next)] == who)
  {
    hide Accepts, Pattern, LeavesWaiting, AfterSteps, IsRequest, IsPattern;
    var who, rules, event := (steps[i].client, steps[i].tag), Pattern(steps[i].request), steps[n].event;
    OneMoreStep(steps, i);
    OneMoreStep(steps, n);
    WaitsOn(steps, i + 1, n, who, rules);
    var d := AfterSteps(steps[..n]);
    DeskHasPatterns(steps[..n]);
    assert WaitedFor(d.book, event);
    OneAccepts(Waiter(d.book, event), rules, event);
  }

  /** Somebody who is called, or who waits, has issued a command. */
  ghost predicate HasIssued(steps: seq<Step>, who: (nat, nat)) {
    exists i :: 0 <= i < |steps| && steps[i].Issues? && (steps[i].client, steps[i].tag) == who
  }

  lemma IssuedBefore(steps: seq<Step>, step: Step, who: (nat, nat))
    requires HasIssued(steps, who)
    ensures HasIssued(steps + [step], who)
  {
    var i :| 0 <= i < |steps| && steps[i].Issues? && (steps[i].client, steps[i].tag) == who;
    assert (steps + [step])[i] == steps[i];
  }

  lemma IssuedNow(steps: seq<Step>, step: Step)
    ensures step.Issues? ==> HasIssued(steps + [step], (step.client, step.tag))
  {
    assert (steps + [step])[|steps|] == step;
  }

  /** A step calls who was waiting, and lets wait who was waiting or issues a command. */
  lemma CalledOrWaiting(d: Desk, step: Step)
    ensures
      var after := Stepped(d, step);
      && |d.calls| <= |after.calls|
      && (forall k :: 0 <= k < |d.calls| ==> after.calls[k] == d.calls[k])
      && (forall k :: |d.calls| <= k < |after.calls| ==>
           exists rules :: rules in d.book && d.book[rules] == after.calls[k].0)
      && (forall rules :: rules in after.book ==>
           (step.Issues? && after.book[rules] == (step.client, step.tag)) ||
           exists other :: other in d.book && d.book[other] == after.book[rules])
  {
    hide Accepts, Pattern;
  }

  /** Nobody is called who did not issue a command, and nobody waits. */
  lemma {:induction false} NobodyElseIsCalled(steps: seq<Step>)
    ensures
      var d := AfterSteps(steps);
      && (forall k :: 0 <= k < |d.calls| ==> HasIssued(steps, d.calls[k].0))
      && (forall rules :: rules in d.book ==> HasIssued(steps, d.book[rules]))
  {
    if steps == [] {
    } else {
      hide AfterSteps, Stepped, HasIssued;
      var front, last := steps[..|steps| - 1], steps[|steps| - 1];
      NobodyElseIsCalled(front);
      assert steps == front + [last] && steps[..|steps| - 1 + 1] == steps;
      OneMoreStep(steps, |steps| - 1);
      var d, after := AfterSteps(front), AfterSteps(steps);
      IssuedNow(front, last);
      CalledOrWaiting(d, last);
      forall k | 0 <= k < |after.calls|
        ensures HasIssued(steps, after.calls[k].0)
      {
        if k < |d.calls| {
          IssuedBefore(front, last, d.calls[k].0);
        } else {
          var rules :| rules in d.book && d.book[rules] == after.calls[k].0;
          IssuedBefore(front, last, d.book[rules]);
        }
      }
      forall rules | rules in after.book
        ensures HasIssued(steps, after.book[rules])
      {
        if !last.Issues? || after.book[rules] != (last.client, last.tag) {
          var other :| other in d.book && d.book[other] == after.book[rules];
          IssuedBefore(front, last, d.book[other]);
        }
      }
    }
  }
}
