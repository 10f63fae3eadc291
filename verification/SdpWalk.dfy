/** Whole walks with the SDP reader: what `leave` undoes, what it does not, and what a loop
    of `next` visits. */
module SdpWalk {
  import opened Bytes
  import opened SdpElement
  import opened SdpTree
  import opened SdpReader
  import opened Temporal

  /** `enter` needs an element under the cursor, and the nesting depth is an 8-bit field. */
  predicate Allowed(tree: Element, c: Cursor, op: Op) {
    op == Enter ==> OnNode(tree, c) && |c.path| < 255
  }

  function Step(tree: Element, c: Cursor, op: Op): (r: Cursor)
    requires IsPosition(tree, c.path) && Allowed(tree, c, op)
    ensures IsPosition(tree, r.path)
  {
    match op
    case Next => AfterNext(tree, c)
    case Enter => AfterEnter(tree, c)
    case Leave => AfterLeave(tree, c)
  }

  /** Every call of the walk can be made, and the walk never climbs to depth d or above. */
  predicate StaysBelow(tree: Element, c: Cursor, ops: seq<Op>, d: nat)
    requires IsPosition(tree, c.path)
    decreases |ops|, 0
  {
    if ops == [] then |c.path| > d
    else
      var n := |ops| - 1;
      && StaysBelow(tree, c, ops[..n], d)
      && Allowed(tree, Walk(tree, c, ops[..n], d), ops[n])
      && |Step(tree, Walk(tree, c, ops[..n], d), ops[n]).path| > d
  }

  function Walk(tree: Element, c: Cursor, ops: seq<Op>, d: nat): (r: Cursor)
    requires IsPosition(tree, c.path) && StaysBelow(tree, c, ops, d)
    ensures IsPosition(tree, r.path) && |r.path| > d
    decreases |ops|, 1
  {
    if ops == [] then c
    else Step(tree, Walk(tree, c, ops[..|ops| - 1], d), ops[|ops| - 1])
  }

  lemma {:induction false} WalkKeepsAncestors(tree: Element, c: Cursor, ops: seq<Op>, d: nat)
    requires IsPosition(tree, c.path) && StaysBelow(tree, c, ops, d) && |c.path| > d
    ensures Walk(tree, c, ops, d).path[..d] == c.path[..d]
    decreases |ops|
  {
    if ops == [] {
    } else {
      var before := Walk(tree, c, ops[..|ops| - 1], d);
      WalkKeepsAncestors(tree, c, ops[..|ops| - 1], d);
      StepKeepsAncestors(tree, before, ops[|ops| - 1], d);
    }
  }

  lemma {:induction false} StepKeepsAncestors(tree: Element, c: Cursor, op: Op, d: nat)
    requires IsPosition(tree, c.path) && Allowed(tree, c, op)
    requires |c.path| > d && |Step(tree, c, op).path| > d
    ensures Step(tree, c, op).path[..d] == c.path[..d]
  {
  }

  /** `enter`, any walk inside, `leave`: the path is the one before, and with it the offset,
      the sequence start and the depth, which are functions of the path. The whole reader is
      as before exactly when the `next_called` flag happens to agree. */
  lemma {:induction false} LeaveUndoesEnter(tree: Element, c: Cursor, ops: seq<Op>)
    requires OnNode(tree, c) && NodeAt(tree, c.path).Group?
    requires StaysBelow(tree, AfterEnter(tree, c), ops, |c.path|)
    requires |Walk(tree, AfterEnter(tree, c), ops, |c.path|).path| == |c.path| + 1
    ensures var inside := Walk(tree, AfterEnter(tree, c), ops, |c.path|);
      var after := AfterLeave(tree, inside);
      after.path == c.path && (after == c <==> inside.nextCalled == c.nextCalled)
  {
    WalkKeepsAncestors(tree, AfterEnter(tree, c), ops, |c.path|);
    assert AfterEnter(tree, c).path[..|c.path|] == c.path;
  }

  /** What one call does to the cursor, as far as the flag is concerned. */
  datatype Event = Revealed | Entered | Other

  predicate IsRevealed(e: Event) { e == Revealed }

  predicate IsEntered(e: Event) { e == Entered }

  /** A `next` with a child under the cursor reveals it; an `enter` may be refused. */
  function EventOf(tree: Element, c: Cursor, op: Op): Event
    requires IsPosition(tree, c.path) && Allowed(tree, c, op)
  {
    if op == Next && OnNode(tree, c) then Revealed
    else if op == Enter && NodeAt(tree, c.path).Group? then Entered
    else Other
  }

  function WalkLog(tree: Element, c: Cursor, ops: seq<Op>, d: nat): seq<Event>
    requires IsPosition(tree, c.path) && StaysBelow(tree, c, ops, d)
    decreases |ops|
  {
    if ops == [] then []
    else
      var front := ops[..|ops| - 1];
      WalkLog(tree, c, front, d) + [EventOf(tree, Walk(tree, c, front, d), ops[|ops| - 1])]
  }

  /** The flag that `leave` leaves behind: it is set exactly when some `next` found a child
      and no sequence was entered after it. */
  lemma {:induction false} FlagAfterWalk(tree: Element, c: Cursor, ops: seq<Op>, d: nat)
    requires IsPosition(tree, c.path) && StaysBelow(tree, c, ops, d) && !c.nextCalled
    ensures Walk(tree, c, ops, d).nextCalled <==> Since(WalkLog(tree, c, ops, d), IsRevealed, IsEntered)
    decreases |ops|
  {
    if ops == [] {
    } else {
      var front, op := ops[..|ops| - 1], ops[|ops| - 1];
      FlagAfterWalk(tree, c, front, d);
      var before := Walk(tree, c, front, d);
      FlagOfStep(tree, before, op);
      SinceSnoc(WalkLog(tree, c, front, d), EventOf(tree, before, op), IsRevealed, IsEntered);
    }
  }

  lemma {:induction false} FlagOfStep(tree: Element, c: Cursor, op: Op)
    requires IsPosition(tree, c.path) && Allowed(tree, c, op) && c.path != []
    ensures var e := EventOf(tree, c, op);
      Step(tree, c, op).nextCalled == (e == Revealed || (e != Entered && c.nextCalled))
  {
  }

  /** Where the flag matters: after leaving an empty sequence, the next `next` does not move.
      Entering and leaving every child of [[], nil] stays on the first child for ever. */
  lemma EmptyChildIsVisitedAgain()
    ensures var tree := Group(SEQUENCE, 5, [Group(SEQUENCE, 5, []), Nil]);
      var first := AfterNext(tree, AfterEnter(tree, Cursor([], false)));
      WellFormed(tree) && first == Cursor([0], true) &&
      var back := AfterLeave(tree, AfterNext(tree, AfterEnter(tree, first)));
      back == Cursor([0], false) && AfterNext(tree, back) == first
  {
    var inner := Group(SEQUENCE, 5, []);
    var tree := Group(SEQUENCE, 5, [inner, Nil]);
    assert Encode(inner) == Header(SEQUENCE, 5, 0) + [];
    Cons(inner, [Nil]);
    Cons(Nil, []);
    assert [inner] + [Nil] == tree.items && [Nil] + [] == [Nil];
    assert EncodeAll(tree.items) == Encode(inner) + (Encode(Nil) + []);
    assert |EncodeAll(tree.items)| == 3;
    Ranges();
    assert WellFormed(tree);
    var root := Cursor([], false);
    var inTree := AfterEnter(tree, root);
    assert inTree == Cursor([0], false);
    assert Front([0]) == [] && NodeAt(tree, [0]) == inner;
    var inInner := AfterEnter(tree, Cursor([0], true));
    assert inInner == Cursor([0, 0], false);
    assert Front([0, 0]) == [0];
  }

  /** Runs a walk on a reader. */
  method Perform(r: Reader, ops: seq<Op>, ghost d: nat)
    requires r.Valid() && StaysBelow(r.tree, r.View(), ops, d)
    modifies r
    ensures r.Valid() && r.View() == Walk(r.tree, old(r.View()), ops, d)
    decreases |ops|
  {
    if ops != [] {
      Perform(r, ops[..|ops| - 1], d);
      match ops[|ops| - 1]
      case Next => var _ := r.Next();
      case Enter => var _ := r.Enter();
      case Leave => var _ := r.Leave();
    }
  }

  /** On the reader itself: offset, sequence start and depth are restored by the matching
      `leave`, whatever was done inside. */
  method EnterWalkLeave(r: Reader, ops: seq<Op>)
    requires r.Valid() && OnNode(r.tree, r.View()) && NodeAt(r.tree, r.path).Group? && r.depth < 255
    requires StaysBelow(r.tree, AfterEnter(r.tree, r.View()), ops, |r.path|)
    requires |Walk(r.tree, AfterEnter(r.tree, r.View()), ops, |r.path|).path| == |r.path| + 1
    modifies r
    ensures r.Valid()
    ensures r.offset == old(r.offset) && r.seqStart == old(r.seqStart) && r.depth == old(r.depth)
    ensures r.nextCalled == Walk(r.tree, AfterEnter(r.tree, old(r.View())), ops, |old(r.path)|).nextCalled
  {
    LeaveUndoesEnter(r.tree, r.View(), ops);
    ghost var d := |r.path|;
    var _ := r.Enter();
    Perform(r, ops, d);
    var _ := r.Leave();
  }

  /** offsets[i] is where the encoding of child i stands. */
  ghost predicate AreChildOffsets(tree: Element, parent: Path, offsets: seq<int>) {
    forall i :: 0 <= i < |offsets| ==> IsPath(tree, parent + [i]) && offsets[i] == OffsetOf(tree, parent + [i])
  }

  lemma {:induction false} OneMoreOffset(tree: Element, parent: Path, offsets: seq<int>)
    requires AreChildOffsets(tree, parent, offsets) && IsPath(tree, parent + [|offsets|])
    ensures AreChildOffsets(tree, parent, offsets + [OffsetOf(tree, parent + [|offsets|])])
  {
    hide IsPath, IsPosition, NodeAt, OffsetOf;
  }

  lemma {:induction false} NextChildCursor(tree: Element, parent: Path, k: nat)
    requires IsPath(tree, parent) && NodeAt(tree, parent).Group? && k <= |NodeAt(tree, parent).items|
    ensures IsPosition(tree, parent + [k]) && Front(parent + [k]) == parent
    ensures IsPath(tree, parent + [k]) <==> k < |NodeAt(tree, parent).items|
    ensures AfterNext(tree, Cursor(parent + [k], true)) ==
      Cursor(parent + [if k < |NodeAt(tree, parent).items| then k + 1 else k], true)
    ensures AfterNext(tree, Cursor(parent + [k], false)) ==
      Cursor(parent + [k], k < |NodeAt(tree, parent).items|)
  {
    assert Front(parent + [k]) == parent;
  }

  /** A loop of `next` visits each child exactly once, in order, and then stops. */
  method ChildOffsets(r: Reader) returns (offsets: seq<int>)
    requires r.Valid() && OnNode(r.tree, r.View()) && NodeAt(r.tree, r.path).Group? && r.depth < 255
    modifies r
    ensures r.Valid()
    ensures |offsets| == |NodeAt(r.tree, old(r.path)).items| && AreChildOffsets(r.tree, old(r.path), offsets)
  {
    ghost var parent := r.path;
    ghost var count := |NodeAt(r.tree, parent).items|;
    var _ := r.Enter();
    offsets := [];
    NextChildCursor(r.tree, parent, 0);
    var found := r.Next();
    hide AfterNext, NodeAt, OffsetOf, Encode, WellFormed, AreChildOffsets;
    while found
      invariant r.Valid() && |offsets| <= count
      invariant r.path == parent + [|offsets|] && (found ==> r.nextCalled) && (found <==> |offsets| < count)
      invariant AreChildOffsets(r.tree, parent, offsets)
      decreases count - |offsets|
    {
      NextChildCursor(r.tree, parent, |offsets|);
      NextChildCursor(r.tree, parent, |offsets| + 1);
      OneMoreOffset(r.tree, parent, offsets);
      offsets := offsets + [r.offset];
      found := r.Next();
    }
  }
}
