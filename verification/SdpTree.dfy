/** Where the parts of an encoded element tree stand: a node is named by the path of child
    indices that leads to it, and every node has one byte offset from the root. */
module SdpTree {
  import opened Prelude
  import opened Bytes
  import opened SdpElement

  type Path = seq<nat>

  function Front(path: Path): Path
    requires path != []
  {
    path[..|path| - 1]
  }

  function Last(path: Path): nat
    requires path != []
  {
    path[|path| - 1]
  }

  /** `path` names a node of the tree. */
  predicate IsPath(e: Element, path: Path)
    decreases |path|, 0
  {
    path == [] ||
    (IsPath(e, Front(path)) && NodeAt(e, Front(path)).Group? && Last(path) < |NodeAt(e, Front(path)).items|)
  }

  function NodeAt(e: Element, path: Path): Element
    requires IsPath(e, path)
    decreases |path|, 1
  {
    if path == [] then e else NodeAt(e, Front(path)).items[Last(path)]
  }

  /** `path` names a node, or the place after the last child of a node. */
  predicate IsPosition(e: Element, path: Path) {
    path == [] ||
    (IsPath(e, Front(path)) && NodeAt(e, Front(path)).Group? && Last(path) <= |NodeAt(e, Front(path)).items|)
  }

  function ChildOffset(group: Element, i: nat): nat
    requires group.Group? && i <= |group.items|
  {
    |HeaderOf(group)| + |EncodeAll(group.items[..i])|
  }

  function OffsetOf(e: Element, path: Path): nat
    requires IsPosition(e, path)
    decreases |path|
  {
    if path == [] then 0 else OffsetOf(e, Front(path)) + ChildOffset(NodeAt(e, Front(path)), Last(path))
  }

  lemma {:induction false} EncodeAllSplit(items: seq<Element>, i: nat)
    requires i <= |items|
    ensures EncodeAll(items) == EncodeAll(items[..i]) + EncodeAll(items[i..])
    decreases i
  {
    if i == 0 {
      assert items[..0] == [] && items[0..] == items;
    } else {
      EncodeAllSplit(items[1..], i - 1);
      assert items[1..][..i - 1] == items[..i][1..] && items[1..][i - 1..] == items[i..];
      assert items[..i][0] == items[0];
      hide Encode;
      Associative(Encode(items[0]), EncodeAll(items[..i][1..]), EncodeAll(items[i..]));
    }
  }

  /** Child i begins where child i - 1 ends. */
  lemma {:induction false} NextChild(group: Element, i: nat)
    requires group.Group? && i < |group.items|
    ensures ChildOffset(group, i + 1) == ChildOffset(group, i) + |Encode(group.items[i])|
  {
    var items := group.items[..i + 1];
    EncodeAllSplit(items, i);
    assert items[..i] == group.items[..i] && items[i..] == [group.items[i]];
    Cons(group.items[i], []);
  }

  lemma {:induction false} ChildOffsetsGrow(group: Element, i: nat, j: nat)
    requires group.Group? && i <= j <= |group.items|
    ensures ChildOffset(group, i) + (j - i) <= ChildOffset(group, j)
    decreases j - i
  {
    if i == j {
    } else {
      ChildOffsetsGrow(group, i, j - 1);
      NextChild(group, j - 1);
    }
  }

  lemma {:induction false} LastChildEnds(group: Element)
    requires group.Group?
    ensures ChildOffset(group, |group.items|) == |Encode(group)|
  {
    assert group.items[..|group.items|] == group.items;
    EncodeSplits(group, []);
  }

  /** A child's bytes stand inside its parent's. */
  lemma {:induction false} ChildInside(group: Element, i: nat)
    requires group.Group? && i < |group.items|
    ensures 0 < ChildOffset(group, i)
    ensures ChildOffset(group, i) + |Encode(group.items[i])| <= |Encode(group)|
  {
    NextChild(group, i);
    ChildOffsetsGrow(group, i + 1, |group.items|);
    LastChildEnds(group);
  }

  lemma {:induction false} ChildWellFormed(items: seq<Element>, i: nat)
    requires AllWellFormed(items) && i < |items|
    ensures WellFormed(items[i])
    decreases i
  {
    if i == 0 {
    } else {
      ChildWellFormed(items[1..], i - 1);
    }
  }

  lemma {:induction false} NodeWellFormed(e: Element, path: Path)
    requires WellFormed(e) && IsPath(e, path)
    ensures WellFormed(NodeAt(e, path))
    decreases |path|
  {
    if path == [] {
    } else {
      NodeWellFormed(e, Front(path));
      ChildWellFormed(NodeAt(e, Front(path)).items, Last(path));
    }
  }

  lemma {:induction false} ChildAt(de: seq<byte>, group: Element, i: nat)
    requires group.Group? && i <= |group.items| && Encode(group) <= de
    ensures ChildOffset(group, i) <= |de|
    ensures EncodeAll(group.items[i..]) <= de[ChildOffset(group, i)..]
  {
    EncodeSplits(group, []);
    EncodeAllSplit(group.items, i);
    var head, before, rest := HeaderOf(group), EncodeAll(group.items[..i]), EncodeAll(group.items[i..]);
    Associative(head, before, rest);
    PrefixSplit(de, head + before, rest);
  }

  /** Every node's encoding stands at its offset. */
  lemma {:induction false} NodeBytes(de: seq<byte>, e: Element, path: Path)
    requires Encode(e) <= de && IsPath(e, path)
    ensures OffsetOf(e, path) <= |de|
    ensures Encode(NodeAt(e, path)) <= de[OffsetOf(e, path)..]
    decreases |path|
  {
    if path == [] {
      assert de[0..] == de;
    } else {
      NodeBytes(de, e, Front(path));
      var o, group, i := OffsetOf(e, Front(path)), NodeAt(e, Front(path)), Last(path);
      ChildAt(de[o..], group, i);
      assert de[o..][ChildOffset(group, i)..] == de[OffsetOf(e, path)..];
      PrefixSplit(de[OffsetOf(e, path)..], Encode(group.items[i..][0]), EncodeAll(group.items[i..][1..]));
    }
  }

  /** A proper descendant starts after its ancestor and ends no later. */
  lemma {:induction false} Contained(e: Element, path: Path, k: nat)
    requires IsPath(e, path) && k < |path|
    ensures IsPath(e, path[..k])
    ensures OffsetOf(e, path[..k]) < OffsetOf(e, path)
    ensures OffsetOf(e, path) + |Encode(NodeAt(e, path))| <= OffsetOf(e, path[..k]) + |Encode(NodeAt(e, path[..k]))|
    decreases |path|
  {
    ChildInside(NodeAt(e, Front(path)), Last(path));
    if k == |path| - 1 {
      assert path[..k] == Front(path);
    } else {
      Contained(e, Front(path), k);
      assert Front(path)[..k] == path[..k];
    }
  }
}
