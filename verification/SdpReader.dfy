/** The cursor over an encoded element (sdp.c:406-523). `leave` does not remember the parent
    it goes back to: it scans the whole element again from the root to find it. */
module SdpReader {
  import opened Bytes
  import opened SdpElement
  import opened SdpTree

  /** What a reader points at: the path of the current position, and whether `next` has been
      called since the sequence was entered. */
  datatype Cursor = Cursor(path: Path, nextCalled: bool)

  datatype Op = Next | Enter | Leave

  predicate OnNode(tree: Element, c: Cursor) {
    IsPath(tree, c.path)
  }

  function SeqStart(tree: Element, path: Path): nat
    requires IsPosition(tree, path)
  {
    if path == [] then 0 else OffsetOf(tree, Front(path))
  }

  /** `next`: the first call after `enter` only reveals the first child. */
  function AfterNext(tree: Element, c: Cursor): (r: Cursor)
    requires IsPosition(tree, c.path)
    ensures IsPosition(tree, r.path)
  {
    if c.path == [] || Last(c.path) >= |NodeAt(tree, Front(c.path)).items| then c
    else if !c.nextCalled then c.(nextCalled := true)
    else
      var path := Front(c.path) + [Last(c.path) + 1];
      assert Front(path) == Front(c.path);
      c.(path := path)
  }

  /** `enter` reads the element at the cursor, so there has to be one. */
  function AfterEnter(tree: Element, c: Cursor): (r: Cursor)
    requires OnNode(tree, c)
    ensures IsPosition(tree, r.path)
  {
    if NodeAt(tree, c.path).Group? then
      assert Front(c.path + [0]) == c.path;
      Cursor(c.path + [0], false)
    else c
  }

  function AfterLeave(tree: Element, c: Cursor): (r: Cursor)
    requires IsPosition(tree, c.path)
    ensures IsPosition(tree, r.path)
  {
    if c.path == [] then c else c.(path := Front(c.path))
  }

  class Reader {
    const de: seq<byte>
    var offset: int
    var seqStart: int
    var depth: nat
    var nextCalled: bool
    ghost const tree: Element
    ghost var path: Path

    ghost predicate Valid()
      reads this
    {
      && WellFormed(tree) && Encode(tree) <= de
      && IsPosition(tree, path)
      && depth == |path| <= 255 && offset == OffsetOf(tree, path) && seqStart == SeqStart(tree, path)
    }

    ghost function View(): Cursor
      reads this
    {
      Cursor(path, nextCalled)
    }

    constructor (de: seq<byte>, ghost tree: Element)
      requires WellFormed(tree) && Encode(tree) <= de
      ensures Valid() && View() == Cursor([], false) && this.de == de && this.tree == tree
    {
      this.de, this.tree, this.path := de, tree, [];
      offset, seqStart, depth, nextCalled := 0, 0, 0, false;
    }

    /** The size of the current element, or 0 when there is none (sdp.c:487-523). */
    method CurrentSize() returns (size: nat)
      requires Valid()
      ensures size == VisibleSize(tree, View())
    {
      if depth > 0 {
        if !nextCalled {
          return 0;
        }
        NodeSeen(de, tree, Front(path));
        SequenceEnd(tree, path);
        var seqSize := TotalSize(de[seqStart..]);
        if offset >= seqStart + seqSize {
          return 0;
        }
      }
      NodeSeen(de, tree, path);
      size := TotalSize(de[offset..]);
    }

    method Next() returns (found: bool)
      requires Valid()
      modifies this
      ensures Valid() && View() == AfterNext(tree, old(View()))
      ensures found <==> path != [] && OnNode(tree, View())
    {
      if depth == 0 {
        return false;
      }
      NextFacts(de, tree, View());
      hide AfterNext, TotalSize, HeaderFits, Encode, WellFormed;
      var end := seqStart + TotalSize(de[seqStart..]);
      if offset >= end {
        return false;
      }
      if !nextCalled {
        nextCalled := true;
        return true;
      }
      var size := TotalSize(de[offset..]);
      offset, path := offset + size, AfterNext(tree, View()).path;
      found := offset < end;
    }

    method Enter() returns (entered: bool)
      requires Valid() && OnNode(tree, View()) && depth < 255
      modifies this
      ensures Valid() && View() == AfterEnter(tree, old(View()))
      ensures entered <==> NodeAt(tree, old(path)).Group?
    {
      EnterFacts(de, tree, View());
      var typ := TypeOf(de[offset..]);
      if typ != SEQUENCE && typ != CHOICE {
        return false;
      }
      MoveInto(HeaderSize(de[offset..]));
      entered := true;
    }

    method MoveInto(headerSize: nat)
      requires Valid() && OnNode(tree, View()) && NodeAt(tree, path).Group? && depth < 255
      requires OffsetOf(tree, AfterEnter(tree, View()).path) == offset + headerSize
      modifies this
      ensures Valid() && View() == AfterEnter(tree, old(View()))
    {
      hide NodeAt, OffsetOf, WellFormed, Encode, IsPath;
      assert Front(path + [0]) == path;
      path := path + [0];
      seqStart := offset;
      offset := offset + headerSize;
      depth := depth + 1;
      nextCalled := false;
    }

    method Leave() returns (left: bool)
      requires Valid()
      modifies this
      ensures Valid() && View() == AfterLeave(tree, old(View()))
      ensures left <==> old(path) != []
    {
      if depth == 0 {
        return false;
      }
      offset := seqStart;
      depth := depth - 1;
      path := Front(path);
      if depth == 0 {
        seqStart := 0;
      } else {
        seqStart := FindSeqStartOffset(de, depth - 1, offset, tree, path);
      }
      left := true;
    }
  }

  function VisibleSize(tree: Element, c: Cursor): nat
    requires IsPosition(tree, c.path)
  {
    if c.path == [] || (c.nextCalled && OnNode(tree, c)) then |Encode(NodeAt(tree, c.path))| else 0
  }

  /** What the accessors report at a node's offset. */
  lemma {:induction false} NodeSeen(de: seq<byte>, tree: Element, path: Path)
    requires WellFormed(tree) && Encode(tree) <= de && IsPath(tree, path)
    ensures OffsetOf(tree, path) <= |de|
    ensures var at, node := de[OffsetOf(tree, path)..], NodeAt(tree, path);
      HeaderFits(at) && TotalSize(at) == |Encode(node)| && HeaderSize(at) == |HeaderOf(node)| &&
      (node.Group? <==> IsGroupTag(TypeOf(at)))
  {
    NodeBytes(de, tree, path);
    NodeWellFormed(tree, path);
    var at, node := de[OffsetOf(tree, path)..], NodeAt(tree, path);
    var rest := at[|Encode(node)|..];
    assert at == Encode(node) + rest;
    Accessors(node, rest);
  }

  /** What `enter` finds. */
  lemma {:induction false} EnterFacts(de: seq<byte>, tree: Element, c: Cursor)
    requires WellFormed(tree) && Encode(tree) <= de && OnNode(tree, c)
    ensures var off, c' := OffsetOf(tree, c.path), AfterEnter(tree, c);
      && off < |de| && HeaderFits(de[off..])
      && (NodeAt(tree, c.path).Group? <==> TypeOf(de[off..]) == SEQUENCE || TypeOf(de[off..]) == CHOICE)
      && if NodeAt(tree, c.path).Group? then
           && c' == Cursor(c.path + [0], false) && SeqStart(tree, c'.path) == off
           && OffsetOf(tree, c'.path) == off + HeaderSize(de[off..])
         else c' == c
  {
    NodeSeen(de, tree, c.path);
    hide TypeOf, HeaderSize, HeaderFits, Encode, WellFormed;
    if NodeAt(tree, c.path).Group? {
      assert Front(c.path + [0]) == c.path && NodeAt(tree, c.path).items[..0] == [];
      NoChildrenBefore(NodeAt(tree, c.path));
    }
  }

  lemma NoChildrenBefore(group: Element)
    requires group.Group?
    ensures ChildOffset(group, 0) == |HeaderOf(group)|
  {
    assert group.items[..0] == [];
  }

  /** A position is past the end of its sequence exactly when no child stands there. */
  lemma {:induction false} SequenceEnd(tree: Element, path: Path)
    requires IsPosition(tree, path) && path != []
    ensures OffsetOf(tree, path) <= OffsetOf(tree, Front(path)) + |Encode(NodeAt(tree, Front(path)))|
    ensures OffsetOf(tree, path) == OffsetOf(tree, Front(path)) + |Encode(NodeAt(tree, Front(path)))| <==>
      Last(path) == |NodeAt(tree, Front(path)).items|
  {
    var group := NodeAt(tree, Front(path));
    LastChildEnds(group);
    ChildOffsetsGrow(group, Last(path), |group.items|);
  }

  /** What each exit of `next` finds. */
  lemma {:induction false} NextFacts(de: seq<byte>, tree: Element, c: Cursor)
    requires WellFormed(tree) && Encode(tree) <= de && IsPosition(tree, c.path) && c.path != []
    ensures var start, off, c' := OffsetOf(tree, Front(c.path)), OffsetOf(tree, c.path), AfterNext(tree, c);
      start <= |de| && HeaderFits(de[start..]) &&
      var end := start + TotalSize(de[start..]);
      && (off >= end ==> c' == c && !OnNode(tree, c))
      && (off < end ==> OnNode(tree, c) && off <= |de| && HeaderFits(de[off..]))
      && (off < end && !c.nextCalled ==> c' == c.(nextCalled := true))
      && (off < end && c.nextCalled ==>
            && c'.nextCalled && |c'.path| == |c.path| && Front(c'.path) == Front(c.path)
            && OffsetOf(tree, c'.path) == off + TotalSize(de[off..])
            && (OnNode(tree, c') <==> OffsetOf(tree, c'.path) < end))
  {
    NodeSeen(de, tree, Front(c.path));
    SequenceEnd(tree, c.path);
    if OnNode(tree, c) {
      NodeSeen(de, tree, c.path);
      if c.nextCalled {
        OneFurther(tree, c);
        SequenceEnd(tree, AfterNext(tree, c).path);
      }
    }
    hide TotalSize, HeaderFits, Encode, WellFormed;
  }

  lemma {:induction false} OneFurther(tree: Element, c: Cursor)
    requires OnNode(tree, c) && c.path != [] && c.nextCalled
    ensures var path := AfterNext(tree, c).path;
      path != [] && Front(path) == Front(c.path) && Last(path) == Last(c.path) + 1 &&
      OffsetOf(tree, path) == OffsetOf(tree, c.path) + |Encode(NodeAt(tree, c.path))|
  {
    NextChild(NodeAt(tree, Front(c.path)), Last(c.path));
    var path := Front(c.path) + [Last(c.path) + 1];
    assert Front(path) == Front(c.path);
  }

  /** The scan stands on an ancestor of q, or on an earlier sibling of one. */
  predicate Toward(tree: Element, path: Path, q: Path) {
    |path| < |q| && (path == [] || (Front(path) == q[..|path| - 1] && Last(path) <= q[|path| - 1]))
  }

  /** The scan's test is true exactly on the ancestors of q, once `next` has shown them. */
  lemma {:induction false} ScanTest(tree: Element, c: Cursor, q: Path)
    requires IsPath(tree, q) && IsPosition(tree, c.path) && Toward(tree, c.path, q)
    ensures OffsetOf(tree, c.path) + VisibleSize(tree, c) >= OffsetOf(tree, q) <==>
      c.path == [] || (c.nextCalled && c.path == q[..|c.path|])
    ensures c.path == q[..|c.path|] ==> OnNode(tree, c) && NodeAt(tree, c.path).Group?
  {
    var d := |c.path|;
    Contained(tree, q, d);
    AncestorIsGroup(tree, q, d);
    VisibleSizeIs(tree, c);
    if c.path != [] && c.path != q[..d] {
      EarlierSibling(tree, c.path, q);
    }
    assert c.path == [] ==> q[..d] == [] == c.path;
    hide NodeAt, OffsetOf, IsPath, IsPosition, Encode, Toward, VisibleSize;
  }

  lemma VisibleSizeIs(tree: Element, c: Cursor)
    requires IsPosition(tree, c.path)
    ensures c.path == [] || (c.nextCalled && OnNode(tree, c)) ==>
      IsPath(tree, c.path) && VisibleSize(tree, c) == |Encode(NodeAt(tree, c.path))|
    ensures c.path != [] && !(c.nextCalled && OnNode(tree, c)) ==> VisibleSize(tree, c) == 0
  {
  }

  /** A scan position that is not an ancestor of q is a node that ends before q starts. */
  lemma {:induction false} EarlierSibling(tree: Element, path: Path, q: Path)
    requires IsPath(tree, q) && Toward(tree, path, q) && path != [] && path != q[..|path|]
    ensures IsPath(tree, path) && Last(path) < q[|path| - 1]
    ensures OffsetOf(tree, path) + |Encode(NodeAt(tree, path))| < OffsetOf(tree, q)
  {
    var d := |path|;
    TowardFront(tree, path, q);
    Contained(tree, q, d);
    hide Toward;
    Sibling(tree, path, q[..d]);
  }

  lemma TowardFront(tree: Element, path: Path, q: Path)
    requires Toward(tree, path, q) && path != []
    ensures q[..|path|] != [] && Front(q[..|path|]) == Front(path) && Last(q[..|path|]) == q[|path| - 1]
    ensures path == q[..|path|] <==> Last(path) == q[|path| - 1]
  {
    var d := |path|;
    assert q[..d] == q[..d - 1] + [q[d - 1]];
    assert path == Front(path) + [Last(path)];
  }

  lemma {:induction false} AncestorIsGroup(tree: Element, q: Path, d: nat)
    requires IsPath(tree, q) && d < |q|
    ensures IsPath(tree, q[..d]) && NodeAt(tree, q[..d]).Group?
    decreases |q|
  {
    if d == |q| - 1 {
      assert q[..d] == Front(q);
    } else {
      AncestorIsGroup(tree, Front(q), d);
      assert Front(q)[..d] == q[..d];
    }
  }

  /** An earlier sibling is a node and ends at or before the later one starts. */
  lemma {:induction false} Sibling(tree: Element, a: Path, b: Path)
    requires IsPath(tree, b) && a != [] && b != [] && Front(a) == Front(b) && Last(a) < Last(b)
    ensures IsPath(tree, a) && OffsetOf(tree, a) + |Encode(NodeAt(tree, a))| <= OffsetOf(tree, b)
  {
    var group := NodeAt(tree, Front(a));
    NextChild(group, Last(a));
    ChildOffsetsGrow(group, Last(a) + 1, Last(b));
  }

  /** What a reader's fields say of its view. */
  lemma Stands(r: Reader)
    requires r.Valid()
    ensures r.View() == Cursor(r.path, r.nextCalled) && IsPosition(r.tree, r.path)
    ensures r.depth == |r.path| && r.offset == OffsetOf(r.tree, r.path)
    ensures r.offset >= 0
  {
  }

  lemma RootToward(tree: Element, q: Path)
    requires q != []
    ensures Toward(tree, [], q) && IsPosition(tree, [])
  {
  }

  lemma Found(tree: Element, path: Path, q: Path)
    requires q != [] && |path| == |q| - 1 && (path == [] || path == q[..|path|])
    ensures path == Front(q)
  {
  }

  lemma EnterToward(tree: Element, c: Cursor, q: Path)
    requires Toward(tree, c.path, q) && |q| <= 255 && |c.path| != |q| - 1 && (c.path == [] || c.path == q[..|c.path|])
    requires OnNode(tree, c) && NodeAt(tree, c.path).Group?
    ensures |c.path| < 255
    ensures Toward(tree, AfterEnter(tree, c).path, q) && LevelsLeft(AfterEnter(tree, c), q) < LevelsLeft(c, q)
  {
    assert AfterEnter(tree, c) == Cursor(c.path + [0], false);
    assert q[..0] == [] && q[..|c.path|] == c.path;
    hide AfterEnter, NodeAt, IsPath, IsPosition;
    OneDeeper(tree, c.path, q);
  }

  lemma OneDeeper(tree: Element, path: Path, q: Path)
    requires |path| < |q| - 1 && q[..|path|] == path
    ensures Toward(tree, path + [0], q)
  {
    assert Front(path + [0]) == path && Last(path + [0]) == 0;
  }

  lemma NextToward(tree: Element, c: Cursor, q: Path)
    requires IsPath(tree, q) && IsPosition(tree, c.path) && Toward(tree, c.path, q)
    requires c.path != [] && !(c.nextCalled && c.path == q[..|c.path|])
    ensures
      var c' := AfterNext(tree, c);
      && Toward(tree, c'.path, q) && LevelsLeft(c', q) == LevelsLeft(c, q)
      && if c.nextCalled then SiblingsLeft(c', q) < SiblingsLeft(c, q)
         else SiblingsLeft(c', q) == SiblingsLeft(c, q) && ToReveal(c') < ToReveal(c)
  {
    StillToward(tree, c, q);
    hide AfterNext, NodeAt, IsPath, IsPosition;
  }

  lemma {:induction false} StillToward(tree: Element, c: Cursor, q: Path)
    requires IsPath(tree, q) && IsPosition(tree, c.path) && Toward(tree, c.path, q)
    requires c.path != [] && !(c.nextCalled && c.path == q[..|c.path|])
    ensures var c' := AfterNext(tree, c);
      Toward(tree, c'.path, q) && |c'.path| == |c.path| &&
      (if c.nextCalled then c'.nextCalled && Last(c'.path) == Last(c.path) + 1 else c'.nextCalled && c'.path == c.path)
  {
    var d := |c.path|;
    if c.path == q[..d] {
      AncestorIsGroup(tree, q, d);
    } else {
      EarlierSibling(tree, c.path, q);
      if c.nextCalled {
        OneFurther(tree, c);
      }
    }
    hide OffsetOf, NodeAt, Encode;
  }

  /** How far the scan still has to go: levels down, siblings along, and whether `next` has to reveal the child. */
  function LevelsLeft(c: Cursor, q: Path): nat {
    if |c.path| <= |q| then |q| - |c.path| else 0
  }

  function SiblingsLeft(c: Cursor, q: Path): nat {
    if c.path == [] || |c.path| > |q| || Last(c.path) > q[|c.path| - 1] then 0 else q[|c.path| - 1] - Last(c.path)
  }

  function ToReveal(c: Cursor): nat {
    if c.nextCalled then 0 else 1
  }

  /** One turn of the scan: the offset of the element it looks for, or -1 and a step nearer to it. */
  method ScanStep(reader: Reader, target: nat, contained: nat, ghost q: Path) returns (at: int)
    requires reader.Valid() && IsPath(reader.tree, q) && 1 <= |q| <= 255 && Toward(reader.tree, reader.path, q)
    requires contained == OffsetOf(reader.tree, q) && target == |q| - 1
    modifies reader
    ensures at >= 0 ==> at == OffsetOf(reader.tree, Front(q))
    ensures at < 0 ==> reader.Valid() && Toward(reader.tree, reader.path, q)
    ensures at < 0 ==>
      var after, before := reader.View(), old(reader.View());
      || LevelsLeft(after, q) < LevelsLeft(before, q)
      || (LevelsLeft(after, q) == LevelsLeft(before, q) && SiblingsLeft(after, q) < SiblingsLeft(before, q))
      || (LevelsLeft(after, q) == LevelsLeft(before, q) && SiblingsLeft(after, q) == SiblingsLeft(before, q)
          && ToReveal(after) < ToReveal(before))
  {
    hide *;
    ghost var c := reader.View();
    Stands(reader);
    ScanTest(reader.tree, c, q);
    var size := reader.CurrentSize();
    at := -1;
    if reader.offset + size >= contained {
      if reader.depth == target {
        Found(reader.tree, c.path, q);
        return reader.offset;
      }
      EnterToward(reader.tree, c, q);
      var entered := reader.Enter();
    } else {
      NextToward(reader.tree, c, q);
      var found := reader.Next();
    }
    Stands(reader);
  }

  /** sdp.c:448-468: scans from the root for the element at nesting level `target` that
      contains `contained`. It terminates and finds the true parent of the node there. */
  method FindSeqStartOffset(de: seq<byte>, target: nat, contained: nat, ghost tree: Element, ghost q: Path)
    returns (start: nat)
    requires WellFormed(tree) && Encode(tree) <= de
    requires IsPath(tree, q) && 1 <= |q| <= 255 && contained == OffsetOf(tree, q) && target == |q| - 1
    ensures start == OffsetOf(tree, Front(q))
  {
    var reader := new Reader(de, tree);
    RootToward(tree, q);
    hide *;
    while true
      invariant reader.Valid() && reader.tree == tree && fresh(reader) && Toward(tree, reader.path, q)
      decreases LevelsLeft(reader.View(), q), SiblingsLeft(reader.View(), q), ToReveal(reader.View())
    {
      var at := ScanStep(reader, target, contained, q);
      if at >= 0 {
        return at;
      }
    }
  }
}
