/** Reference counts of linked packets: every packet counts one for each holder, a holder being a caller
    or the link of a packet before it (buffer.h:45-49, 88-109, 131-167). Memory is a map from addresses;
    a freed packet is no longer in it. */
module PacketRefs {
  import opened Prelude
  import opened Bytes

  type Id = nat

  datatype Cell = Cell(refs: nat, next: Option<Id>, data: seq<byte>)

  type Cells = map<Id, Cell>

  predicate Live(cells: Cells, b: Id) {
    b in cells && cells[b].refs > 0
  }

  ghost function LiveIds(cells: Cells): set<Id> {
    set b | b in cells && cells[b].refs > 0
  }

  /** The packets whose link holds b. A packet on its way to being freed holds nothing any more. */
  ghost function LinksTo(cells: Cells, b: Id): set<Id> {
    set q | q in cells && cells[q].refs > 0 && cells[q].next == Some(b)
  }

  /** Each count equals the number of holders, and nothing held is missing. `held` are the references of
      everything that is not a packet. */
  ghost predicate Balanced(cells: Cells, held: multiset<Id>) {
    && (forall b :: b in cells ==> cells[b].refs == held[b] + |LinksTo(cells, b)|)
    && (forall b :: b in held ==> b in cells)
    && (forall q :: Live(cells, q) && cells[q].next.Some? ==> cells[q].next.value in cells)
  }

  // ----- single steps -----

  predicate Holds(c: Cell, q: Id) {
    c.refs > 0 && c.next == Some(q)
  }

  function One(b: bool): nat {
    if b then 1 else 0
  }

  /** Changing one packet changes the number of links to q by its own. */
  lemma LinksUpdate(cells: Cells, t: Id, c: Cell, q: Id)
    requires t in cells
    ensures |LinksTo(cells[t := c], q)| == |LinksTo(cells, q)| - One(Holds(cells[t], q)) + One(Holds(c, q))
  {
    OtherLinks(cells, t, c, q);
    WithAndWithout(LinksTo(cells, q), t);
    WithAndWithout(LinksTo(cells[t := c], q), t);
  }

  lemma OtherLinks(cells: Cells, t: Id, c: Cell, q: Id)
    requires t in cells
    ensures LinksTo(cells[t := c], q) - {t} == LinksTo(cells, q) - {t}
    ensures (t in LinksTo(cells, q) <==> Holds(cells[t], q)) && (t in LinksTo(cells[t := c], q) <==> Holds(c, q))
  {
  }

  lemma WithAndWithout(s: set<Id>, t: Id)
    ensures |s| == |s - {t}| + One(t in s)
  {
    assert t in s ==> s == s - {t} + {t};
    assert t !in s ==> s == s - {t};
  }

  lemma AllocBalanced(cells: Cells, held: multiset<Id>, b: Id, data: seq<byte>)
    requires Balanced(cells, held) && b !in cells
    ensures Balanced(cells[b := Cell(1, None, data)], held + multiset{b})
  {
    var after := cells[b := Cell(1, None, data)];
    forall q | q in after
      ensures LinksTo(after, q) == LinksTo(cells, q)
    {
    }
    assert LinksTo(after, b) == {};
  }

  /** The packet t becomes c, and the references become `held'`: what has to add up. */
  lemma UpdateBalanced(cells: Cells, held: multiset<Id>, t: Id, c: Cell, held': multiset<Id>)
    requires Balanced(cells, held) && t in cells
    requires c.refs > 0 && c.next.Some? ==> c.next.value in cells
    requires forall q :: q in held' ==> q in cells
    requires forall q :: q in cells && q != t ==>
               held'[q] + One(Holds(c, q)) == held[q] + One(Holds(cells[t], q))
    requires c.refs - cells[t].refs == held'[t] - held[t] + One(Holds(c, t)) - One(Holds(cells[t], t))
    ensures Balanced(cells[t := c], held')
  {
    hide LinksTo, One, Holds;
    var after := cells[t := c];
    forall q | q in after
      ensures after[q].refs == held'[q] + |LinksTo(after, q)|
    {
      LinksUpdate(cells, t, c, q);
    }
    forall q | Live(after, q) && after[q].next.Some?
      ensures after[q].next.value in after
    {
      assert q != t ==> Live(cells, q);
    }
  }

  lemma RefBalanced(cells: Cells, held: multiset<Id>, b: Id)
    requires Balanced(cells, held) && Live(cells, b)
    ensures Balanced(cells[b := cells[b].(refs := cells[b].refs + 1)], held + multiset{b})
  {
    UpdateBalanced(cells, held, b, cells[b].(refs := cells[b].refs + 1), held + multiset{b});
  }

  /** A link takes over a reference. */
  lemma LinkBalanced(cells: Cells, held: multiset<Id>, t: Id, b: Id)
    requires Balanced(cells, held) && Live(cells, t) && cells[t].next == None && b in held
    ensures Balanced(cells[t := cells[t].(next := Some(b))], held - multiset{b})
  {
    UpdateBalanced(cells, held, t, cells[t].(next := Some(b)), held - multiset{b});
  }

  /** The holder of a packet takes over the reference its link had. */
  lemma UnlinkBalanced(cells: Cells, held: multiset<Id>, t: Id)
    requires Balanced(cells, held) && Live(cells, t) && cells[t].next.Some?
    ensures Balanced(cells[t := cells[t].(next := None)], held + multiset{cells[t].next.value})
  {
    UpdateBalanced(cells, held, t, cells[t].(next := None), held + multiset{cells[t].next.value});
  }

  // ----- giving up a reference -----

  /** What is left after giving up one reference to b: with its last reference a packet gives up its own
      link and is freed. */
  ghost function Drop(cells: Cells, b: Id): Cells
    decreases |LiveIds(cells)|
  {
    if !Live(cells, b) then cells
    else if cells[b].refs > 1 then cells[b := cells[b].(refs := cells[b].refs - 1)]
    else
      LastRefShrinks(cells, b);
      var dying := cells[b := cells[b].(refs := 0)];
      (if cells[b].next.Some? then Drop(dying, cells[b].next.value) else dying) - {b}
  }

  lemma LastRefShrinks(cells: Cells, b: Id)
    requires Live(cells, b)
    ensures |LiveIds(cells[b := cells[b].(refs := 0)])| < |LiveIds(cells)|
  {
    assert LiveIds(cells) == LiveIds(cells[b := cells[b].(refs := 0)]) + {b};
  }

  /** Nothing but counts changes, packets only go away, and packets being freed are left alone. */
  ghost predicate OnlyFrees(before: Cells, after: Cells) {
    && (forall q :: q in after ==> q in before && after[q].next == before[q].next && after[q].data == before[q].data)
    && (forall q :: q in before && before[q].refs == 0 ==> q in after && after[q] == before[q])
    && (forall q :: q in after && after[q].refs == 0 ==> before[q].refs == 0)
  }

  lemma DecrementBalanced(cells: Cells, held: multiset<Id>, b: Id)
    requires Balanced(cells, held) && b in held && cells[b].refs > 1
    ensures Balanced(cells[b := cells[b].(refs := cells[b].refs - 1)], held - multiset{b})
  {
    UpdateBalanced(cells, held, b, cells[b].(refs := cells[b].refs - 1), held - multiset{b});
  }

  /** With its last reference gone, the packet's link becomes a reference to be given up. */
  lemma DyingBalanced(cells: Cells, held: multiset<Id>, b: Id)
    requires Balanced(cells, held) && b in held && cells[b].refs == 1
    ensures
      var dying := cells[b := cells[b].(refs := 0)];
      Balanced(dying, held - multiset{b} + (if cells[b].next.Some? then multiset{cells[b].next.value} else multiset{}))
  {
    var next := cells[b].next;
    assert Live(cells, b);
    assert held[b] == 1 && |LinksTo(cells, b)| == 0;
    assert b !in LinksTo(cells, b);
    UpdateBalanced(cells, held, b, cells[b].(refs := 0),
                   held - multiset{b} + (if next.Some? then multiset{next.value} else multiset{}));
  }

  lemma RemoveBalanced(cells: Cells, held: multiset<Id>, b: Id)
    requires Balanced(cells, held) && b in cells && cells[b].refs == 0
    ensures Balanced(cells - {b}, held)
  {
    var after := cells - {b};
    forall q | q in after
      ensures LinksTo(after, q) == LinksTo(cells, q)
    {
    }
    assert |LinksTo(cells, b)| == 0;
    forall q | Live(after, q) && after[q].next.Some?
      ensures after[q].next.value in after
    {
      assert Live(cells, q) && q !in LinksTo(cells, b);
    }
  }

  lemma {:induction false} DropBalanced(cells: Cells, held: multiset<Id>, b: Id)
    requires Balanced(cells, held) && b in held
    ensures Balanced(Drop(cells, b), held - multiset{b})
    ensures OnlyFrees(cells, Drop(cells, b))
    decreases |LiveIds(cells)|
  {
    hide Balanced, OnlyFrees, LinksTo;
    HeldIsLive(cells, held, b);
    if cells[b].refs > 1 {
      DecrementBalanced(cells, held, b);
      DecrementFrame(cells, b);
    } else {
      LastRefShrinks(cells, b);
      DyingBalanced(cells, held, b);
      var dying := cells[b := cells[b].(refs := 0)];
      var next := cells[b].next;
      var rest := if next.Some? then Drop(dying, next.value) else dying;
      if next.Some? {
        DropBalanced(dying, held - multiset{b} + multiset{next.value}, next.value);
        assert held - multiset{b} + multiset{next.value} - multiset{next.value} == held - multiset{b};
      } else {
        FrameItself(dying);
        assert held - multiset{b} + multiset{} == held - multiset{b};
      }
      FrameDying(dying, rest, b);
      RemoveBalanced(rest, held - multiset{b}, b);
      FrameAround(cells, rest, b);
    }
  }

  lemma HeldIsLive(cells: Cells, held: multiset<Id>, b: Id)
    requires Balanced(cells, held) && b in held
    ensures Live(cells, b)
  {
  }

  lemma FrameItself(cells: Cells)
    ensures OnlyFrees(cells, cells)
  {
  }

  lemma DecrementFrame(cells: Cells, b: Id)
    requires Live(cells, b) && cells[b].refs > 1
    ensures OnlyFrees(cells, cells[b := cells[b].(refs := cells[b].refs - 1)])
  {
  }

  lemma FrameDying(dying: Cells, rest: Cells, b: Id)
    requires OnlyFrees(dying, rest) && b in dying && dying[b].refs == 0
    ensures b in rest && rest[b].refs == 0
  {
  }

  lemma FrameAround(cells: Cells, rest: Cells, b: Id)
    requires Live(cells, b) && OnlyFrees(cells[b := cells[b].(refs := 0)], rest)
    ensures OnlyFrees(cells, rest - {b})
  {
  }

  // ----- what the balance means -----

  ghost predicate NoneDying(cells: Cells) {
    forall b :: b in cells ==> cells[b].refs > 0
  }

  /** Freed exactly when nobody holds it: giving up a reference frees a packet if and only if neither a
      remaining reference nor the link of a remaining packet holds it. */
  lemma FreedExactlyWhenUnheld(cells: Cells, held: multiset<Id>, b: Id, q: Id)
    requires Balanced(cells, held) && NoneDying(cells) && b in held && q in cells
    ensures NoneDying(Drop(cells, b))
    ensures q !in Drop(cells, b) <==> (held - multiset{b})[q] == 0 && LinksTo(Drop(cells, b), q) == {}
  {
    DropBalanced(cells, held, b);
    var after := Drop(cells, b);
    if q in after {
      assert after[q].refs > 0;
      assert LinksTo(after, q) == {} ==> |LinksTo(after, q)| == 0;
    }
  }

  /** Neither a reference nor the link of a packet holds q. */
  ghost predicate Unheld(cells: Cells, held: multiset<Id>, q: Id) {
    held[q] == 0 && LinksTo(cells, q) == {}
  }

  lemma GoneIsUnheld(cells: Cells, held: multiset<Id>, q: Id)
    requires Balanced(cells, held) && NoneDying(cells)
    ensures q !in cells <==> Unheld(cells, held, q)
  {
    if q in cells {
      assert cells[q].refs > 0;
      assert LinksTo(cells, q) == {} ==> |LinksTo(cells, q)| == 0;
    } else {
      forall p | p in LinksTo(cells, q)
        ensures false
      {
        assert Live(cells, p);
      }
    }
  }

  // ----- linked lists -----

  function At(ids: seq<Id>, i: nat): Option<Id> {
    if i < |ids| then Some(ids[i]) else None
  }

  ghost predicate Chain(cells: Cells, head: Option<Id>, ids: seq<Id>) {
    && head == At(ids, 0)
    && (forall i :: 0 <= i < |ids| ==> ids[i] in cells)
    && (forall i :: 0 <= i < |ids| ==> cells[ids[i]].next == At(ids, i + 1))
    && (forall i, j :: 0 <= i < j < |ids| ==> ids[i] != ids[j])
  }

  ghost function DataOf(cells: Cells, ids: seq<Id>): (data: seq<seq<byte>>)
    requires forall i :: 0 <= i < |ids| ==> ids[i] in cells
    ensures |data| == |ids|
    ensures forall i :: 0 <= i < |ids| ==> data[i] == cells[ids[i]].data
  {
    seq(|ids|, i requires 0 <= i < |ids| => cells[ids[i]].data)
  }

  function Head(head: Option<Id>): multiset<Id> {
    if head.Some? then multiset{head.value} else multiset{}
  }

  /** What was there and still is has its data, and unless it is one of those touched its link as well. */
  ghost predicate LeavesAlone(touched: seq<Id>, before: Cells, after: Cells) {
    forall q :: q in before && q in after ==>
      after[q].data == before[q].data && (q !in touched ==> after[q].next == before[q].next)
  }

  /** In addition, nothing new is there. */
  ghost predicate OnlyTouches(touched: seq<Id>, before: Cells, after: Cells) {
    after.Keys <= before.Keys && LeavesAlone(touched, before, after)
  }

  lemma FreeingTouchesNothing(before: Cells, after: Cells)
    requires OnlyFrees(before, after)
    ensures OnlyTouches([], before, after) && LeavesAlone([], before, after)
  {
  }

  lemma TouchesThen(touched: seq<Id>, a: Cells, b: Cells, more: seq<Id>, c: Cells)
    requires OnlyTouches(touched, a, b) && OnlyTouches(more, b, c) && forall i :: 0 <= i < |more| ==> more[i] in touched
    ensures OnlyTouches(touched, a, c)
  {
  }

  /** A list whose head is held survives whatever else is given up, and whatever links others change. */
  lemma {:induction false} ChainSurvives(cells: Cells, after: Cells, held: multiset<Id>, head: Option<Id>,
                                         ids: seq<Id>, touched: seq<Id>, n: nat)
    requires Chain(cells, head, ids) && LeavesAlone(touched, cells, after)
    requires Balanced(after, held) && NoneDying(after)
    requires forall i :: 0 <= i < |ids| ==> ids[i] !in touched
    requires Head(head) <= held && n <= |ids|
    ensures forall i :: 0 <= i < n ==> ids[i] in after
    decreases n
  {
    hide LinksTo;
    if n == 1 {
      assert multiset{ids[0]} <= held;
      assert ids[0] in held;
    } else if n > 1 {
      ChainSurvives(cells, after, held, head, ids, touched, n - 1);
      assert Live(after, ids[n - 2]) && after[ids[n - 2]].next == cells[ids[n - 2]].next == Some(ids[n - 1]);
    }
  }

  lemma ChainKept(cells: Cells, after: Cells, held: multiset<Id>, head: Option<Id>, ids: seq<Id>, touched: seq<Id>)
    requires Chain(cells, head, ids) && LeavesAlone(touched, cells, after)
    requires Balanced(after, held) && NoneDying(after)
    requires forall i :: 0 <= i < |ids| ==> ids[i] !in touched
    requires Head(head) <= held
    ensures Chain(after, head, ids) && DataOf(after, ids) == DataOf(cells, ids)
  {
    hide LinksTo, Balanced;
    ChainSurvives(cells, after, held, head, ids, touched, |ids|);
  }

  lemma FirstIsThere(cells: Cells, b: Id, ids: seq<Id>)
    requires Chain(cells, Some(b), ids)
    ensures b in cells && ids != [] && ids[0] == b
  {
  }

  lemma HeadIsFirst(cells: Cells, head: Option<Id>, ids: seq<Id>)
    requires Chain(cells, head, ids)
    ensures head == At(ids, 0)
    ensures forall i :: 0 <= i < |ids| ==> ids[i] in cells
  {
  }

  /** Counts do not matter to a list. */
  lemma ChainCounts(cells: Cells, b: Id, head: Option<Id>, ids: seq<Id>)
    requires Chain(cells, head, ids) && b in cells
    ensures
      var after := cells[b := cells[b].(refs := cells[b].refs + 1)];
      && (forall i :: 0 <= i < |ids| ==> ids[i] in cells)
      && Chain(after, head, ids) && DataOf(after, ids) == DataOf(cells, ids)
  {
  }

  /** Linking one list behind another. */
  lemma ChainAppend(cells: Cells, head: Option<Id>, ids: seq<Id>, b: Id, more: seq<Id>)
    requires Chain(cells, head, ids) && Chain(cells, Some(b), more) && ids != []
    requires forall i, j :: 0 <= i < |ids| && 0 <= j < |more| ==> ids[i] != more[j]
    ensures
      var t := ids[|ids| - 1];
      var after := cells[t := cells[t].(next := Some(b))];
      Chain(after, head, ids + more) && DataOf(after, ids + more) == DataOf(cells, ids) + DataOf(cells, more)
  {
    var all := ids + more;
    forall i | 0 <= i < |all|
      ensures all[i] in cells && LinkedAfter(cells, ids, b)[all[i]].next == At(all, i + 1)
    {
      AppendedAt(cells, head, ids, b, more, i);
    }
    forall i, j | 0 <= i < j < |all|
      ensures all[i] != all[j]
    {
      AppendedApart(cells, head, ids, b, more, i, j);
    }
    AppendedData(cells, LinkedAfter(cells, ids, b), ids, more);
  }

  function LinkedAfter(cells: Cells, ids: seq<Id>, b: Id): Cells
    requires ids != [] && ids[|ids| - 1] in cells
  {
    cells[ids[|ids| - 1] := cells[ids[|ids| - 1]].(next := Some(b))]
  }

  lemma AppendedAt(cells: Cells, head: Option<Id>, ids: seq<Id>, b: Id, more: seq<Id>, i: nat)
    requires Chain(cells, head, ids) && Chain(cells, Some(b), more) && ids != []
    requires forall i, j :: 0 <= i < |ids| && 0 <= j < |more| ==> ids[i] != more[j]
    requires i < |ids + more|
    ensures (ids + more)[i] in cells && LinkedAfter(cells, ids, b)[(ids + more)[i]].next == At(ids + more, i + 1)
  {
    var all, k := ids + more, |ids|;
    HeadIsFirst(cells, Some(b), more);
    HeadIsFirst(cells, head, ids);
    AtAppended(ids, more, i);
    hide Chain, At;
    if i < k - 1 {
      ChainNext(cells, head, ids, i);
      Distinct(cells, head, ids, i, k - 1);
    } else if i >= k {
      ChainNext(cells, Some(b), more, i - k);
    }
  }

  lemma AtAppended(ids: seq<Id>, more: seq<Id>, i: nat)
    requires i < |ids + more|
    ensures
      if i < |ids| - 1 then (ids + more)[i] == ids[i] && At(ids + more, i + 1) == At(ids, i + 1)
      else if i < |ids| then (ids + more)[i] == ids[i] && At(ids + more, i + 1) == At(more, 0)
      else (ids + more)[i] == more[i - |ids|] && At(ids + more, i + 1) == At(more, i - |ids| + 1)
  {
  }

  lemma AppendedApart(cells: Cells, head: Option<Id>, ids: seq<Id>, b: Id, more: seq<Id>, i: nat, j: nat)
    requires Chain(cells, head, ids) && Chain(cells, Some(b), more)
    requires forall i, j :: 0 <= i < |ids| && 0 <= j < |more| ==> ids[i] != more[j]
    requires i < j < |ids + more|
    ensures (ids + more)[i] != (ids + more)[j]
  {
  }

  lemma AppendedData(cells: Cells, after: Cells, ids: seq<Id>, more: seq<Id>)
    requires forall i :: 0 <= i < |ids| ==> ids[i] in cells
    requires forall i :: 0 <= i < |more| ==> more[i] in cells
    requires cells.Keys <= after.Keys && forall q :: q in cells ==> after[q].data == cells[q].data
    ensures forall i :: 0 <= i < |ids + more| ==> (ids + more)[i] in after
    ensures DataOf(after, ids + more) == DataOf(cells, ids) + DataOf(cells, more)
  {
  }

  /** A new reference to a list, put into the link of the last packet of another list. */
  function Linked(cells: Cells, t: Id, b: Id): Cells
    requires t in cells && b in cells
  {
    var counted := cells[b := cells[b].(refs := cells[b].refs + 1)];
    counted[t := counted[t].(next := Some(b))]
  }

  lemma LinkedBehind(cells: Cells, held: multiset<Id>, head: Option<Id>, ids: seq<Id>, b: Id, more: seq<Id>)
    requires Balanced(cells, held) && NoneDying(cells)
    requires Chain(cells, head, ids) && Chain(cells, Some(b), more) && ids != []
    requires forall i, j :: 0 <= i < |ids| && 0 <= j < |more| ==> ids[i] != more[j]
    ensures b in cells && ids[|ids| - 1] in cells
    ensures
      var after := Linked(cells, ids[|ids| - 1], b);
      && Balanced(after, held) && NoneDying(after)
      && Chain(after, head, ids + more)
      && (forall i :: 0 <= i < |ids| ==> ids[i] in cells) && (forall i :: 0 <= i < |more| ==> more[i] in cells)
      && DataOf(after, ids + more) == DataOf(cells, ids) + DataOf(cells, more)
  {
    hide LinksTo, Balanced;
    var t := ids[|ids| - 1];
    var counted := cells[b := cells[b].(refs := cells[b].refs + 1)];
    RefBalanced(cells, held, b);
    LinkBalanced(counted, held + multiset{b}, t, b);
    assert held + multiset{b} - multiset{b} == held;
    hide Chain;
    ChainCounts(cells, b, head, ids);
    ChainCounts(cells, b, Some(b), more);
    ChainAppend(counted, head, ids, b, more);
  }

  lemma LinkedElsewhere(cells: Cells, held: multiset<Id>, head: Option<Id>, ids: seq<Id>, t: Id, b: Id)
    requires Balanced(cells, held) && NoneDying(cells) && Chain(cells, head, ids)
    requires t in cells && cells[t].next == None && t !in ids && b in cells
    ensures forall i :: 0 <= i < |ids| ==> ids[i] in cells
    ensures
      var after := Linked(cells, t, b);
      Balanced(after, held) && NoneDying(after) && Chain(after, head, ids) && DataOf(after, ids) == DataOf(cells, ids)
  {
    hide LinksTo, Balanced;
    var counted := cells[b := cells[b].(refs := cells[b].refs + 1)];
    RefBalanced(cells, held, b);
    LinkBalanced(counted, held + multiset{b}, t, b);
    assert held + multiset{b} - multiset{b} == held;
  }

  lemma ChainSameLinks(cells: Cells, after: Cells, head: Option<Id>, ids: seq<Id>)
    requires Chain(cells, head, ids) && cells.Keys == after.Keys && forall q :: q in cells ==>
      after[q].next == cells[q].next
    ensures Chain(after, head, ids)
  {
  }

  /** Giving up a reference to a list frees exactly the packets in front of the first one that somebody else
      holds, and that one counts one holder less. */
  lemma {:induction false} DropFreesPrefix(cells: Cells, ids: seq<Id>, n: nat)
    requires n <= |ids| && ids != [] && Chain(cells, Some(ids[0]), ids)
    requires forall i :: 0 <= i < |ids| ==> ids[i] in cells
    requires forall i :: 0 <= i < n ==> cells[ids[i]].refs == 1
    requires n < |ids| ==> cells[ids[n]].refs > 1
    ensures Drop(cells, ids[0]) == OneLess(cells, At(ids, n)) - SetOf(ids[..n])
    decreases |ids|
  {
    hide Drop;
    var b, rest := ids[0], ids[1..];
    if n == 0 {
      DropShared(cells, b);
      assert SetOf(ids[..0]) == {};
    } else {
      DropLast(cells, b);
      var dying := cells[b := cells[b].(refs := 0)];
      assert ids[..n] == [b] + rest[..n - 1];
      assert SetOf(ids[..n]) == SetOf(rest[..n - 1]) + {b};
      ChainNext(cells, Some(b), ids, 0);
      hide OneLess;
      if rest == [] {
        hide Chain;
        LessWithout(cells, b, None, {});
        assert SetOf(rest[..n - 1]) == {};
      } else {
        TailOfDying(cells, ids, n);
        hide Chain;
        DropFreesPrefix(dying, rest, n - 1);
        assert At(rest, n - 1) == At(ids, n) != Some(b);
        LessWithout(cells, b, At(ids, n), SetOf(rest[..n - 1]));
      }
    }
  }

  ghost function SetOf(ids: seq<Id>): set<Id> {
    set q | q in ids
  }

  function OneLess(cells: Cells, b: Option<Id>): Cells
    requires b.Some? ==> b.value in cells && cells[b.value].refs > 0
  {
    if b.Some? then cells[b.value := cells[b.value].(refs := cells[b.value].refs - 1)] else cells
  }

  lemma DropShared(cells: Cells, b: Id)
    requires b in cells && cells[b].refs > 1
    ensures Drop(cells, b) == OneLess(cells, Some(b)) == OneLess(cells, Some(b)) - {}
  {
  }

  lemma DropLast(cells: Cells, b: Id)
    requires b in cells && cells[b].refs == 1
    ensures
      var dying := cells[b := cells[b].(refs := 0)];
      Drop(cells, b) == (if cells[b].next.Some? then Drop(dying, cells[b].next.value) else dying) - {b}
  {
  }

  lemma LessWithout(cells: Cells, b: Id, m: Option<Id>, s: set<Id>)
    requires b in cells && m != Some(b) && (m.Some? ==> m.value in cells && cells[m.value].refs > 0)
    ensures OneLess(cells[b := cells[b].(refs := 0)], m) - s - {b} == OneLess(cells, m) - (s + {b})
  {
  }

  lemma TailOfDying(cells: Cells, ids: seq<Id>, n: nat)
    requires 0 < n <= |ids| && |ids| > 1 && Chain(cells, Some(ids[0]), ids)
    requires forall i :: 0 <= i < n ==> cells[ids[i]].refs == 1
    requires n < |ids| ==> cells[ids[n]].refs > 1
    ensures
      var dying, rest := cells[ids[0] := cells[ids[0]].(refs := 0)], ids[1..];
      && Chain(dying, Some(rest[0]), rest) && cells[ids[0]].next == Some(rest[0]) && ids[0] !in rest
      && (forall i :: 0 <= i < |rest| ==> rest[i] in dying)
      && (forall i :: 0 <= i < n - 1 ==> dying[rest[i]].refs == 1)
      && (n < |ids| ==> dying[rest[n - 1]].refs > 1 && ids[n] in cells)
  {
    var dying, rest := cells[ids[0] := cells[ids[0]].(refs := 0)], ids[1..];
    assert [ids[0]] + rest == ids;
    ChainBack(cells, Some(ids[0]), [ids[0]], rest);
    ChainSameLinks(cells, dying, At(rest, 0), rest);
    ChainNext(cells, Some(ids[0]), ids, 0);
    FirstIsElsewhere(cells, ids);
    HeadIsFirst(cells, Some(ids[0]), ids);
    hide Chain;
    forall i | 0 <= i < |rest|
      ensures rest[i] in dying && dying[rest[i]] == cells[ids[i + 1]]
    {
      assert rest[i] == ids[i + 1] && rest[i] in rest;
    }
  }

  lemma FirstIsElsewhere(cells: Cells, ids: seq<Id>)
    requires ids != [] && Chain(cells, Some(ids[0]), ids)
    ensures ids[0] !in ids[1..]
  {
    forall i | 0 <= i < |ids| - 1
      ensures ids[1..][i] != ids[0]
    {
      Distinct(cells, Some(ids[0]), ids, 0, i + 1);
    }
  }

  lemma ChainNext(cells: Cells, head: Option<Id>, ids: seq<Id>, i: nat)
    requires Chain(cells, head, ids) && i < |ids|
    ensures ids[i] in cells && cells[ids[i]].next == At(ids, i + 1)
  {
  }

  /** Giving up a list frees no packet that is not in it. */
  lemma {:induction false} DropKeepsOthers(cells: Cells, ids: seq<Id>, q: Id)
    requires ids != [] && Chain(cells, Some(ids[0]), ids) && q in cells && q !in ids
    ensures q in Drop(cells, ids[0])
    decreases |ids|
  {
    hide Drop;
    var b := ids[0];
    ChainNext(cells, Some(b), ids, 0);
    DropFirst(cells, b);
    if cells[b].refs == 1 && |ids| > 1 {
      var dying := cells[b := cells[b].(refs := 0)];
      assert [b] + ids[1..] == ids;
      ChainBack(cells, Some(b), [b], ids[1..]);
      ChainSameLinks(cells, dying, At(ids[1..], 0), ids[1..]);
      DropKeepsOthers(dying, ids[1..], q);
    }
  }

  lemma DropFirst(cells: Cells, b: Id)
    requires b in cells
    ensures
      var dying := cells[b := cells[b].(refs := 0)];
      if cells[b].refs != 1 then Drop(cells, b).Keys == cells.Keys
      else Drop(cells, b) == (if cells[b].next.Some? then Drop(dying, cells[b].next.value) else dying) - {b}
  {
  }

  /** Taking the first packet off a list. */
  lemma ChainTail(cells: Cells, ids: seq<Id>)
    requires ids != [] && Chain(cells, Some(ids[0]), ids)
    ensures
      var after := cells[ids[0] := cells[ids[0]].(next := None)];
      && Chain(after, cells[ids[0]].next, ids[1..])
      && DataOf(after, ids[1..]) == DataOf(cells, ids)[1..]
  {
  }

  /** The list without the packet b that follows t: the link of t takes over the link of b. */
  function CutOut(cells: Cells, t: Id, b: Id): Cells
    requires t in cells && b in cells
  {
    var bridged := cells[t := cells[t].(next := cells[b].next)];
    bridged[b := bridged[b].(next := None)]
  }

  lemma CutOutBalanced(cells: Cells, held: multiset<Id>, t: Id, b: Id)
    requires Balanced(cells, held) && Live(cells, t) && Live(cells, b) && t != b
    requires cells[t].next == Some(b) && cells[b].next != Some(b)
    ensures Balanced(CutOut(cells, t, b), held + multiset{b})
  {
    hide LinksTo, Balanced;
    var c1 := cells[t := cells[t].(next := None)];
    UnlinkBalanced(cells, held, t);
    var next := cells[b].next;
    if next.Some? {
      var c2 := c1[b := c1[b].(next := None)];
      UnlinkBalanced(c1, held + multiset{b}, b);
      LinkBalanced(c2, held + multiset{b} + multiset{next.value}, t, next.value);
      assert held + multiset{b} + multiset{next.value} - multiset{next.value} == held + multiset{b};
      assert c2[t := c2[t].(next := next)] == CutOut(cells, t, b);
    } else {
      assert c1 == CutOut(cells, t, b);
    }
  }

  /** Cutting a list in two. */
  lemma ChainSplit(cells: Cells, head: Option<Id>, kept: seq<Id>, rest: seq<Id>)
    requires Chain(cells, head, kept + rest) && kept != []
    ensures kept[|kept| - 1] in cells && cells[kept[|kept| - 1]].next == At(rest, 0)
    ensures
      var t := kept[|kept| - 1];
      var after := cells[t := cells[t].(next := None)];
      Chain(after, head, kept) && Chain(after, At(rest, 0), rest)
    ensures forall i, j :: 0 <= i < |kept| && 0 <= j < |rest| ==> kept[i] != rest[j]
  {
    ChainFront(cells, head, kept, rest);
    ChainBack(cells, head, kept, rest);
    ChainApart(cells, head, kept, rest);
    hide Chain;
    CutAtEnd(cells, head, kept, rest);
  }

  lemma ChainFront(cells: Cells, head: Option<Id>, kept: seq<Id>, rest: seq<Id>)
    requires Chain(cells, head, kept + rest) && kept != []
    ensures head == At(kept, 0)
    ensures forall i :: 0 <= i < |kept| ==>
              kept[i] in cells && cells[kept[i]].next == if i + 1 < |kept| then At(kept, i + 1) else At(rest, 0)
    ensures forall i, j :: 0 <= i < j < |kept| ==> kept[i] != kept[j]
  {
    var all := kept + rest;
    forall i | 0 <= i < |kept|
      ensures kept[i] in cells && cells[kept[i]].next == if i + 1 < |kept| then At(kept, i + 1) else At(rest, 0)
    {
      assert all[i] == kept[i];
    }
    forall i, j | 0 <= i < j < |kept|
      ensures kept[i] != kept[j]
    {
      assert all[i] == kept[i] && all[j] == kept[j];
    }
  }

  lemma ChainBack(cells: Cells, head: Option<Id>, kept: seq<Id>, rest: seq<Id>)
    requires Chain(cells, head, kept + rest)
    ensures Chain(cells, At(rest, 0), rest)
  {
    forall j | 0 <= j < |rest|
      ensures rest[j] in cells && cells[rest[j]].next == At(rest, j + 1)
    {
      BackAt(cells, head, kept, rest, j);
    }
    forall i, j | 0 <= i < j < |rest|
      ensures rest[i] != rest[j]
    {
      BackDistinct(cells, head, kept, rest, i, j);
    }
  }

  lemma BackAt(cells: Cells, head: Option<Id>, kept: seq<Id>, rest: seq<Id>, j: nat)
    requires Chain(cells, head, kept + rest) && j < |rest|
    ensures rest[j] in cells && cells[rest[j]].next == At(rest, j + 1)
  {
    hide Chain;
    var all, k := kept + rest, |kept| + j;
    ChainNext(cells, head, all, k);
    assert all[k] == rest[j];
    if j + 1 < |rest| {
      assert all[k + 1] == rest[j + 1];
    }
  }

  lemma BackDistinct(cells: Cells, head: Option<Id>, kept: seq<Id>, rest: seq<Id>, i: nat, j: nat)
    requires Chain(cells, head, kept + rest) && i < j < |rest|
    ensures rest[i] != rest[j]
  {
    hide Chain;
    Distinct(cells, head, kept + rest, |kept| + i, |kept| + j);
  }

  lemma Distinct(cells: Cells, head: Option<Id>, ids: seq<Id>, i: nat, j: nat)
    requires Chain(cells, head, ids) && i < j < |ids|
    ensures ids[i] != ids[j]
  {
  }

  lemma ChainApart(cells: Cells, head: Option<Id>, kept: seq<Id>, rest: seq<Id>)
    requires Chain(cells, head, kept + rest)
    ensures forall i, j :: 0 <= i < |kept| && 0 <= j < |rest| ==> kept[i] != rest[j]
  {
    forall i, j | 0 <= i < |kept| && 0 <= j < |rest|
      ensures kept[i] != rest[j]
    {
      PartsDistinct(cells, head, kept, rest, i, j);
    }
  }

  lemma PartsDistinct(cells: Cells, head: Option<Id>, kept: seq<Id>, rest: seq<Id>, i: nat, j: nat)
    requires Chain(cells, head, kept + rest) && i < |kept| && j < |rest|
    ensures kept[i] != rest[j]
  {
    hide Chain;
    Distinct(cells, head, kept + rest, i, |kept| + j);
  }

  lemma CutAtEnd(cells: Cells, head: Option<Id>, kept: seq<Id>, rest: seq<Id>)
    requires kept != [] && head == At(kept, 0)
    requires forall i :: 0 <= i < |kept| ==>
               kept[i] in cells && cells[kept[i]].next == if i + 1 < |kept| then At(kept, i + 1) else At(rest, 0)
    requires forall i, j :: 0 <= i < j < |kept| ==> kept[i] != kept[j]
    requires Chain(cells, At(rest, 0), rest)
    requires forall i, j :: 0 <= i < |kept| && 0 <= j < |rest| ==> kept[i] != rest[j]
    ensures
      var t := kept[|kept| - 1];
      var after := cells[t := cells[t].(next := None)];
      Chain(after, head, kept) && Chain(after, At(rest, 0), rest)
  {
    ChainElsewhere(cells, At(rest, 0), rest, kept[|kept| - 1]);
  }

  lemma CutOutChain(cells: Cells, head: Option<Id>, kept: seq<Id>, rest: seq<Id>)
    requires Chain(cells, head, kept + rest) && kept != [] && rest != []
    ensures kept[|kept| - 1] in cells && rest[0] in cells && kept[|kept| - 1] != rest[0]
    ensures cells[kept[|kept| - 1]].next == Some(rest[0]) && cells[rest[0]].next == At(rest, 1) != Some(rest[0])
    ensures Chain(CutOut(cells, kept[|kept| - 1], rest[0]), head, kept + rest[1..])
  {
    var t, b := kept[|kept| - 1], rest[0];
    ChainSplit(cells, head, kept, rest);
    var c1 := cells[t := cells[t].(next := None)];
    FirstLinks(c1, rest);
    var c2 := c1[b := c1[b].(next := None)];
    ChainTail(c1, rest);
    ChainElsewhere(c1, head, kept, b);
    hide Chain;
    if |rest| == 1 {
      assert c2 == CutOut(cells, t, b) && kept + rest[1..] == kept;
    } else {
      ChainAppend(c2, head, kept, rest[1], rest[1..]);
      assert c2[t := c2[t].(next := Some(rest[1]))] == CutOut(cells, t, b);
    }
  }

  lemma FirstLinks(cells: Cells, ids: seq<Id>)
    requires ids != [] && Chain(cells, At(ids, 0), ids)
    ensures ids[0] in cells && cells[ids[0]].next == At(ids, 1) != Some(ids[0])
  {
  }

  lemma ChainElsewhere(cells: Cells, head: Option<Id>, ids: seq<Id>, b: Id)
    requires Chain(cells, head, ids) && b in cells && b !in ids
    ensures Chain(cells[b := cells[b].(next := None)], head, ids)
  {
  }
}
