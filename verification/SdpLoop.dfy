/** The loop of `next` as clients write it (obex.c:21-33, 57-70): at each child the body may enter it,
    walk inside and leave it again. */
module SdpLoop {
  import opened Prelude
  import opened SdpElement
  import opened SdpTree
  import opened SdpReader
  import opened SdpWalk
  import opened Temporal

  /** What is done at child i: nothing, or a walk between `enter` and `leave`. */
  ghost predicate IsBody(tree: Element, parent: Path, i: nat, body: Option<seq<Op>>) {
    && IsPath(tree, parent + [i])
    && (body.Some? ==>
          var c := Cursor(parent + [i], true);
          && NodeAt(tree, c.path).Group? && |c.path| < 255
          && StaysBelow(tree, AfterEnter(tree, c), body.value, |c.path|)
          && |Walk(tree, AfterEnter(tree, c), body.value, |c.path|).path| == |c.path| + 1)
  }

  ghost predicate AreBodies(tree: Element, parent: Path, bodies: seq<Option<seq<Op>>>) {
    && IsPath(tree, parent) && NodeAt(tree, parent).Group? && |bodies| == |NodeAt(tree, parent).items|
    && forall i :: 0 <= i < |bodies| ==> IsBody(tree, parent, i, bodies[i])
  }

  /** The reader after the body at child i. */
  ghost function AfterBody(tree: Element, parent: Path, i: nat, body: Option<seq<Op>>): (r: Cursor)
    requires IsBody(tree, parent, i, body)
    ensures IsPosition(tree, r.path)
  {
    var c := Cursor(parent + [i], true);
    if body == None then c
    else AfterLeave(tree, Walk(tree, AfterEnter(tree, c), body.value, |c.path|))
  }

  /** The body leaves the flag set: it does nothing, or some `next` in it found a child and no sequence was
      entered after that. */
  ghost predicate Keeps(tree: Element, parent: Path, i: nat, body: Option<seq<Op>>)
    requires IsBody(tree, parent, i, body)
  {
    body == None ||
    var c := Cursor(parent + [i], true);
    Since(WalkLog(tree, AfterEnter(tree, c), body.value, |c.path|), IsRevealed, IsEntered)
  }

  /** A body comes back to its child, with the flag it left. */
  lemma BodyComesBack(tree: Element, parent: Path, i: nat, body: Option<seq<Op>>)
    requires IsBody(tree, parent, i, body)
    ensures AfterBody(tree, parent, i, body) == Cursor(parent + [i], Keeps(tree, parent, i, body))
  {
    hide StaysBelow, Walk, Since, WalkLog, IsPath, NodeAt;
    if body.Some? {
      var c := Cursor(parent + [i], true);
      LeaveUndoesEnter(tree, c, body.value);
      FlagAfterWalk(tree, AfterEnter(tree, c), body.value, |c.path|);
    }
  }

  /** Where the reader stands after n + 1 calls of `next`, each but the last followed by the body of its child.
      Behind the last child the loop has ended. */
  ghost function Visit(tree: Element, parent: Path, bodies: seq<Option<seq<Op>>>, n: nat): (r: Cursor)
    requires AreBodies(tree, parent, bodies)
    ensures InLoop(parent, bodies, r)
  {
    if n == 0 then
      NextChildCursor(tree, parent, 0);
      AfterNext(tree, Cursor(parent + [0], false))
    else
      var c := Visit(tree, parent, bodies, n - 1);
      if Last(c.path) == |bodies| then c
      else
        BodyAndNext(tree, parent, bodies, Last(c.path));
        AfterNext(tree, AfterBody(tree, parent, Last(c.path), bodies[Last(c.path)]))
  }

  ghost predicate InLoop(parent: Path, bodies: seq<Option<seq<Op>>>, c: Cursor) {
    && c.path != [] && Front(c.path) == parent && Last(c.path) <= |bodies|
    && (Last(c.path) < |bodies| ==> c.nextCalled)
  }

  /** After the body and `next` the reader stands on the next child if the flag was kept, and else on the same. */
  lemma BodyAndNext(tree: Element, parent: Path, bodies: seq<Option<seq<Op>>>, i: nat)
    requires AreBodies(tree, parent, bodies) && i < |bodies|
    ensures IsBody(tree, parent, i, bodies[i])
    ensures
      var c := AfterNext(tree, AfterBody(tree, parent, i, bodies[i]));
      InLoop(parent, bodies, c) && Last(c.path) == if Keeps(tree, parent, i, bodies[i]) then i + 1 else i
  {
    BodyComesBack(tree, parent, i, bodies[i]);
    NextChildCursor(tree, parent, i);
    hide AfterNext, NodeAt, IsPath, IsBody, Keeps;
    assert Front(parent + [i]) == parent && Front(parent + [i + 1]) == parent;
  }

  ghost predicate AllKeep(tree: Element, parent: Path, bodies: seq<Option<seq<Op>>>)
    requires AreBodies(tree, parent, bodies)
  {
    forall i :: 0 <= i < |bodies| ==> Keeps(tree, parent, i, bodies[i])
  }

  lemma VisitStep(tree: Element, parent: Path, bodies: seq<Option<seq<Op>>>, n: nat)
    requires AreBodies(tree, parent, bodies)
    ensures Last(Visit(tree, parent, bodies, 0).path) == 0
    ensures
      var i := Last(Visit(tree, parent, bodies, n).path);
      Last(Visit(tree, parent, bodies, n + 1).path) ==
      if i < |bodies| && Keeps(tree, parent, i, bodies[i]) then i + 1 else i
  {
    hide AfterNext, AfterBody, NodeAt, IsPath, Keeps, InLoop;
    NextChildCursor(tree, parent, 0);
    assert parent + [0] != [] && Last(parent + [0]) == 0;
    InLoopHas(parent, bodies, Visit(tree, parent, bodies, n));
    var i := Last(Visit(tree, parent, bodies, n).path);
    if i < |bodies| {
      BodyAndNext(tree, parent, bodies, i);
    }
  }

  lemma InLoopHas(parent: Path, bodies: seq<Option<seq<Op>>>, c: Cursor)
    requires InLoop(parent, bodies, c)
    ensures c.path != [] && c.path == parent + [Last(c.path)] && Last(c.path) <= |bodies|
  {
  }

  lemma {:induction false} VisitsInOrder(tree: Element, parent: Path, bodies: seq<Option<seq<Op>>>, n: nat)
    requires AreBodies(tree, parent, bodies) && AllKeep(tree, parent, bodies) && n <= |bodies|
    ensures Last(Visit(tree, parent, bodies, n).path) == n
    decreases n
  {
    hide Visit, Keeps;
    if n == 0 {
      VisitStep(tree, parent, bodies, 0);
    } else {
      VisitsInOrder(tree, parent, bodies, n - 1);
      VisitStep(tree, parent, bodies, n - 1);
    }
  }

  lemma {:induction false} NeverPasses(tree: Element, parent: Path, bodies: seq<Option<seq<Op>>>, i: nat, n: nat)
    requires AreBodies(tree, parent, bodies) && i < |bodies| && !Keeps(tree, parent, i, bodies[i])
    ensures Last(Visit(tree, parent, bodies, n).path) <= i
    decreases n
  {
    hide Visit, Keeps;
    if n == 0 {
      VisitStep(tree, parent, bodies, 0);
    } else {
      NeverPasses(tree, parent, bodies, i, n - 1);
      VisitStep(tree, parent, bodies, n - 1);
    }
  }

  /** The loop ends if and only if every body leaves the flag set, and it visits every child once and in order if and
      only if every body does. Otherwise it stays for ever on the first child whose body clears the flag,
          or before it. */
  lemma {:induction false} EachChildOnceIff(tree: Element, parent: Path, bodies: seq<Option<seq<Op>>>)
    requires AreBodies(tree, parent, bodies)
    ensures (exists n: nat :: Last(Visit(tree, parent, bodies, n).path) == |bodies|) <==> AllKeep(tree, parent, bodies)
    ensures (forall n: nat :: n <= |bodies| ==> Last(Visit(tree, parent, bodies, n).path) == n) <==>
      AllKeep(tree, parent, bodies)
  {
    hide Visit, Keeps;
    if AllKeep(tree, parent, bodies) {
      forall n: nat | n <= |bodies|
        ensures Last(Visit(tree, parent, bodies, n).path) == n
      {
        VisitsInOrder(tree, parent, bodies, n);
      }
      VisitsInOrder(tree, parent, bodies, |bodies|);
    } else {
      var i :| 0 <= i < |bodies| && !Keeps(tree, parent, i, bodies[i]);
      forall n: nat
        ensures Last(Visit(tree, parent, bodies, n).path) <= i
      {
        NeverPasses(tree, parent, bodies, i, n);
      }
      NeverPasses(tree, parent, bodies, i, |bodies|);
    }
  }

  /** The body of one child, on the reader. */
  method PerformBody(r: Reader, ghost parent: Path, ghost i: nat, body: Option<seq<Op>>)
    requires r.Valid() && r.View() == Cursor(parent + [i], true) && IsBody(r.tree, parent, i, body)
    modifies r
    ensures r.Valid() && r.View() == AfterBody(r.tree, parent, i, body)
  {
    hide AfterNext, WellFormed, Encode, OffsetOf, NodeAt, IsPath, StaysBelow;
    if body.Some? {
      var _ := r.Enter();
      Perform(r, body.value, |parent| + 1);
      var _ := r.Leave();
    }
  }

  lemma StartOfLoop(tree: Element, parent: Path, bodies: seq<Option<seq<Op>>>)
    requires AreBodies(tree, parent, bodies)
    ensures AfterNext(tree, Cursor(parent + [0], false)) == Visit(tree, parent, bodies, 0)
    ensures Visit(tree, parent, bodies, 0).path == parent + [0] && AreChildOffsets(tree, parent, [])
    ensures IsPath(tree, parent + [0]) <==> 0 < |bodies|
  {
    NextChildCursor(tree, parent, 0);
  }

  lemma VisitHere(r: Reader, parent: Path, bodies: seq<Option<seq<Op>>>, i: nat, offsets: seq<int>)
    requires r.Valid() && AreBodies(r.tree, parent, bodies) && AllKeep(r.tree, parent, bodies)
    requires i == |offsets| < |bodies| && r.View() == Visit(r.tree, parent, bodies, i)
    requires AreChildOffsets(r.tree, parent, offsets)
    ensures r.View() == Cursor(parent + [i], true) && IsBody(r.tree, parent, i, bodies[i])
    ensures AreChildOffsets(r.tree, parent, offsets + [r.offset])
  {
    VisitsInOrder(r.tree, parent, bodies, i);
    InLoopHas(parent, bodies, Visit(r.tree, parent, bodies, i));
    hide Visit, AllKeep, OffsetOf, NodeAt, AreChildOffsets, StaysBelow, Walk, WellFormed, Encode;
    OneMoreOffset(r.tree, parent, offsets);
  }

  lemma NextVisit(tree: Element, parent: Path, bodies: seq<Option<seq<Op>>>, i: nat)
    requires AreBodies(tree, parent, bodies) && AllKeep(tree, parent, bodies) && i < |bodies|
    ensures IsBody(tree, parent, i, bodies[i])
    ensures AfterNext(tree, AfterBody(tree, parent, i, bodies[i])) == Visit(tree, parent, bodies, i + 1)
    ensures Visit(tree, parent, bodies, i + 1).path == parent + [i + 1]
    ensures IsPath(tree, parent + [i + 1]) <==> i + 1 < |bodies|
  {
    hide *;
    PartsOf(tree, parent, bodies, i);
    VisitsInOrder(tree, parent, bodies, i);
    VisitsInOrder(tree, parent, bodies, i + 1);
    NextVisitIs(tree, parent, bodies, i);
    InLoopHas(parent, bodies, Visit(tree, parent, bodies, i + 1));
    NextChildCursor(tree, parent, i + 1);
  }

  lemma PartsOf(tree: Element, parent: Path, bodies: seq<Option<seq<Op>>>, i: nat)
    requires AreBodies(tree, parent, bodies) && i < |bodies|
    ensures IsPath(tree, parent) && NodeAt(tree, parent).Group? && |bodies| == |NodeAt(tree, parent).items|
    ensures IsBody(tree, parent, i, bodies[i])
  {
  }

  lemma NextVisitIs(tree: Element, parent: Path, bodies: seq<Option<seq<Op>>>, n: nat)
    requires AreBodies(tree, parent, bodies) && Last(Visit(tree, parent, bodies, n).path) == n < |bodies|
    ensures IsBody(tree, parent, n, bodies[n])
    ensures Visit(tree, parent, bodies, n + 1) == AfterNext(tree, AfterBody(tree, parent, n, bodies[n]))
  {
    hide AfterNext, AfterBody, IsPath, NodeAt, IsBody;
    BodyAndNext(tree, parent, bodies, n);
  }

  lemma ViewOf(r: Reader)
    ensures r.View() == Cursor(r.path, r.nextCalled)
    ensures OnNode(r.tree, r.View()) <==> IsPath(r.tree, r.path)
  {
  }

  method StartLoop(r: Reader, ghost bodies: seq<Option<seq<Op>>>) returns (found: bool)
    requires r.Valid() && r.depth < 255 && AreBodies(r.tree, r.path, bodies)
    modifies r
    ensures r.Valid() && r.View() == Visit(r.tree, old(r.path), bodies, 0) && AreChildOffsets(r.tree, old(r.path), [])
    ensures found <==> 0 < |bodies|
  {
    hide AfterNext, Visit, AreChildOffsets, WellFormed, Encode, OffsetOf, IsBody;
    ghost var parent := r.path;
    StartOfLoop(r.tree, parent, bodies);
    assert r.View() == Cursor(parent, r.nextCalled);
    var _ := r.Enter();
    assert r.View() == Cursor(parent + [0], false);
    found := r.Next();
  }

  /** The loop on a reader that stands on a sequence: it visits each child once, whatever is done inside, if every
      body leaves the flag set. */
  method VisitChildren(r: Reader, bodies: seq<Option<seq<Op>>>) returns (offsets: seq<int>)
    requires r.Valid() && r.depth < 255 && AreBodies(r.tree, r.path, bodies) && AllKeep(r.tree, r.path, bodies)
    modifies r
    ensures r.Valid() && |offsets| == |bodies| && AreChildOffsets(r.tree, old(r.path), offsets)
    ensures r.View() == Visit(r.tree, old(r.path), bodies, |bodies|)
  {
    hide *;
    ghost var tree, parent := r.tree, r.path;
    offsets := [];
    var found := StartLoop(r, bodies);
    while found
      invariant r.Valid() && r.tree == tree && |offsets| <= |bodies| && (found <==> |offsets| < |bodies|)
      invariant r.View() == Visit(tree, parent, bodies, |offsets|) && AreChildOffsets(tree, parent, offsets)
      decreases |bodies| - |offsets|
    {
      ghost var i := |offsets|;
      VisitHere(r, parent, bodies, i, offsets);
      offsets := offsets + [r.offset];
      PerformBody(r, parent, i, bodies[|offsets| - 1]);
      NextVisit(tree, parent, bodies, i);
      found := r.Next();
      ViewOf(r);
    }
  }
}
