/** `bte_sdp_de_write` (sdp.c:173-395): a recursive writer that first runs over the nested
    arguments with no buffer, to learn their size, and then runs over them again. */
module SdpWriter {
  import opened Prelude
  import opened Bytes
  import opened ByteArrays
  import opened SdpElement
  import opened SdpArgs

  /** write_be16, write_be32, write_be64 and the flipped 128-bit copy. */
  method PutBigEndian(de: array<byte>, at: nat, value: nat, n: nat)
    requires at + n <= de.Length
    modifies de
    ensures de[..] == Patched(old(de[..]), at, BigEndian(value, n))
  {
    PutBytes(de, at, BigEndian(value, n));
  }

  /** var_size: the size index for a length, and the length bytes when there is a buffer. */
  method VarSize(len: nat, dest: array?<byte>, at: nat) returns (sizeId: byte, headerSize: nat)
    requires len < 0x1_0000_0000
    requires dest != null ==> at + |VarHeader(STRING, len)| <= dest.Length
    modifies dest
    ensures sizeId == VarForm(len) && headerSize == 1 + LengthBytes(sizeId)
    ensures dest != null ==> dest[..] == Patched(old(dest[..]), at + 1, BigEndian(len, LengthBytes(sizeId)))
  {
    if len < 0x100 {
      sizeId, headerSize := 5, 1 + 1;
    } else if len < 0x1_0000 {
      sizeId, headerSize := 6, 1 + 2;
    } else {
      sizeId, headerSize := 7, 1 + 4;
    }
    if dest != null {
      PutBigEndian(dest, at + 1, len, headerSize - 1);
    }
  }

  /** A variable-length header: the tag with its size index, then the length. */
  method PutVarHeader(de: array<byte>, at: nat, tag: byte, len: nat)
    requires (IsTextTag(tag) || IsGroupTag(tag)) && len < 0x1_0000_0000
    requires at + |VarHeader(tag, len)| <= de.Length
    modifies de
    ensures de[..] == Patched(old(de[..]), at, VarHeader(tag, len))
  {
    TagByte(tag, VarForm(len));
    var sizeId, _ := VarSize(len, null, 0);
    PutByte(de, at, tag + sizeId);
    var _, _ := VarSize(len, de, at);
    PatchTwice(old(de[..]), at, [tag + sizeId], BigEndian(len, LengthBytes(sizeId)));
  }

  /** de_array_size (sdp.c:192-215). It returns the number of bytes that de_array_write writes for the
      entries exactly if they are not NIL, or there is none. */
  method ArraySize(tag: byte, chunks: seq<seq<byte>>) returns (size: nat)
    requires SingleOk(ArgArray(tag, chunks))
    ensures size == SingleSize(ArgArray(tag, chunks))
    ensures size == |ArrayBytes(tag, chunks)| <==> tag != NIL || chunks == []
  {
    NilArrayBytes(tag, chunks);
    if IsTextTag(tag) {
      size := 0;
      for i := 0 to |chunks|
        invariant size + |ArrayBytes(tag, chunks[i..])| == |ArrayBytes(tag, chunks)|
      {
        var len := |chunks[i]|;
        var _, headerSize := VarSize(len, null, 0);
        size := size + headerSize + len;
        assert chunks[i..][1..] == chunks[i + 1..];
      }
    } else {
      FixedArraySize(tag, chunks);
      size := TotalSize([tag]) * |chunks|;
    }
  }

  lemma {:induction false} FixedArraySize(tag: byte, chunks: seq<seq<byte>>)
    requires SingleOk(ArgArray(tag, chunks)) && !IsTextTag(tag)
    ensures HeaderFits([tag]) && SingleSize(ArgArray(tag, chunks)) == TotalSize([tag]) * |chunks|
  {
    if chunks != [] && tag != NIL {
      FixedArraySize(tag, chunks[1..]);
      var n := TotalSize([tag]);
      assert n * |chunks| == n + n * (|chunks| - 1);
    }
  }

  /** Writing `w` at `at` is all that is missing to have `goal`. */
  predicate Completes(now: seq<byte>, at: nat, w: seq<byte>, goal: seq<byte>) {
    at + |w| <= |now| && Patched(now, at, w) == goal
  }

  lemma CompletesStep(was: seq<byte>, now: seq<byte>, at: nat, a: seq<byte>, k: nat, b: seq<byte>, goal: seq<byte>)
    requires k <= |a| && Completes(was, at, Overlay(a, k, b), goal) && now == Patched(was, at, a)
    ensures Completes(now, at + k, b, goal)
  {
    PatchOverlay(was, at, a, k, b);
  }

  lemma CompletesRoom(now: seq<byte>, at: nat, a: seq<byte>, k: nat, b: seq<byte>, goal: seq<byte>)
    requires k <= |a| && Completes(now, at, Overlay(a, k, b), goal)
    ensures at + |a| <= |now|
  {
  }

  lemma CompletesNothing(now: seq<byte>, at: nat, goal: seq<byte>)
    requires Completes(now, at, [], goal)
    ensures now == goal
  {
    PatchNothing(now, at);
  }

  /** de_array_write (sdp.c:218-250), for a buffer that is large enough for what it writes. */
  method ArrayWrite(de: array<byte>, at: nat, tag: byte, chunks: seq<seq<byte>>)
    requires SingleOk(ArgArray(tag, chunks)) && at + |ArrayWritten(tag, chunks)| <= de.Length
    modifies de
    ensures de[..] == Patched(old(de[..]), at, ArrayWritten(tag, chunks))
  {
    var dest: nat := at;
    ghost var goal := Patched(de[..], at, ArrayWritten(tag, chunks));
    assert IsTextTag(tag) ==> forall i :: 0 <= i < |chunks| ==> |chunks[i]| < 0x1_0000_0000;
    hide *;
    assert chunks[0..] == chunks;
    StartsComplete(de[..], at, ArrayWritten(tag, chunks));
    for i := 0 to |chunks|
      invariant Completes(de[..], dest, ArrayWritten(tag, chunks[i..]), goal)
    {
      assert chunks[i..][1..] == chunks[i + 1..];
      dest := EntryWrite(de, dest, tag, chunks[i], chunks[i..], goal);
    }
    ArrayWrittenNothing(tag);
    CompletesNothing(de[..], dest, goal);
  }

  lemma StartsComplete(now: seq<byte>, at: nat, w: seq<byte>)
    requires at + |w| <= |now|
    ensures Completes(now, at, w, Patched(now, at, w))
  {
  }

  /** One turn of that loop: the first of the entries left. */
  method EntryWrite(de: array<byte>, at: nat, tag: byte, chunk: seq<byte>, ghost left: seq<seq<byte>>,
                    ghost goal: seq<byte>)
    returns (next: nat)
    requires left != [] && left[0] == chunk && (IsTextTag(tag) ==> |chunk| < 0x1_0000_0000)
    requires Completes(de[..], at, ArrayWritten(tag, left), goal)
    modifies de
    ensures Completes(de[..], next, ArrayWritten(tag, left[1..]), goal)
  {
    hide *;
    EntryFits(de[..], at, tag, left, goal);
    ghost var was := de[..];
    ChunkWrite(de, at, tag, chunk);
    next := at + |ChunkBytes(tag, chunk)|;
    EntryDone(was, de[..], at, tag, left, goal);
  }

  lemma EntryFits(now: seq<byte>, at: nat, tag: byte, left: seq<seq<byte>>, goal: seq<byte>)
    requires left != [] && Completes(now, at, ArrayWritten(tag, left), goal)
    ensures at + |ChunkWritten(tag, left[0])| <= |now|
  {
    hide *;
    ArrayWrittenStep(tag, left);
    CompletesRoom(now, at, ChunkWritten(tag, left[0]), |ChunkBytes(tag, left[0])|, ArrayWritten(tag, left[1..]), goal);
  }

  lemma EntryDone(was: seq<byte>, now: seq<byte>, at: nat, tag: byte, left: seq<seq<byte>>, goal: seq<byte>)
    requires left != [] && Completes(was, at, ArrayWritten(tag, left), goal)
    requires at + |ChunkWritten(tag, left[0])| <= |was| && now == Patched(was, at, ChunkWritten(tag, left[0]))
    ensures Completes(now, at + |ChunkBytes(tag, left[0])|, ArrayWritten(tag, left[1..]), goal)
  {
    hide *;
    ArrayWrittenStep(tag, left);
    CompletesStep(was, now, at, ChunkWritten(tag, left[0]), |ChunkBytes(tag, left[0])|, ArrayWritten(tag, left[1..]),
        goal);
  }

  lemma ArrayWrittenNothing(tag: byte)
    ensures ArrayWritten(tag, []) == []
  {
  }

  /** One entry as it is written: a string or URL with its terminator. */
  function ChunkWritten(tag: byte, chunk: seq<byte>): (w: seq<byte>)
    ensures |w| >= |ChunkBytes(tag, chunk)|
  {
    ChunkBytes(tag, chunk) + if IsTextTag(tag) then [0] else []
  }

  lemma ArrayWrittenStep(tag: byte, chunks: seq<seq<byte>>)
    requires chunks != []
    ensures ArrayWritten(tag, chunks)
         == Overlay(ChunkWritten(tag, chunks[0]), |ChunkBytes(tag, chunks[0])|, ArrayWritten(tag, chunks[1..]))
  {
    var one, tail := ChunkBytes(tag, chunks[0]), chunks[1..];
    assert tail != [] ==> |ArrayBytes(tag, tail)| >= |ChunkBytes(tag, tail[0])| > 0;
    assert one + [] == one;
    OverlayBehind(one, Terminator(IsTextTag(tag)), ArrayBytes(tag, tail), Terminator(IsTextTag(tag) && tail != []));
  }

  /** Writing `a` and then `b` from its position k on is writing b laid over a. */
  lemma PatchOverlay(s: seq<byte>, at: nat, a: seq<byte>, k: nat, b: seq<byte>)
    requires k <= |a| && at + |Overlay(a, k, b)| <= |s|
    ensures Patched(Patched(s, at, a), at + k, b) == Patched(s, at, Overlay(a, k, b))
  {
  }

  /** One entry: strings are copied with strcpy, which writes a terminator behind them. */
  method ChunkWrite(de: array<byte>, at: nat, tag: byte, chunk: seq<byte>)
    requires IsTextTag(tag) ==> |chunk| < 0x1_0000_0000
    requires at + |ChunkWritten(tag, chunk)| <= de.Length
    modifies de
    ensures de[..] == Patched(old(de[..]), at, ChunkWritten(tag, chunk))
  {
    ghost var was := de[..];
    if IsTextTag(tag) {
      Associative(VarHeader(tag, |chunk|), chunk, [0]);
      PutText(de, at, tag, chunk, chunk + [0]);
    } else {
      PutByte(de, at, tag);
      PutReversed(de, at + 1, chunk);
      PatchTwice(was, at, [tag], Reverse(chunk));
      assert ChunkBytes(tag, chunk) + [] == ChunkBytes(tag, chunk);
    }
  }

  /** The inner byte-order loop of de_array_write. */
  method PutReversed(de: array<byte>, at: nat, src: seq<byte>)
    requires at + |src| <= de.Length
    modifies de
    ensures de[..] == Patched(old(de[..]), at, Reverse(src))
  {
    ghost var was, flipped := de[..], Reverse(src);
    assert was == Patched(was, at, flipped[..0]);
    hide Patched;
    for j := 0 to |src|
      invariant de[..] == Patched(was, at, flipped[..j])
    {
      assert flipped[..j + 1] == flipped[..j] + [flipped[j]];
      PatchTwice(was, at, flipped[..j], [flipped[j]]);
      PutByte(de, at + j, src[|src| - 1 - j]);
    }
    assert flipped[..|src|] == flipped;
  }

  method PutTagged(de: array<byte>, at: nat, tag: byte, data: seq<byte>)
    requires at + 1 + |data| <= de.Length
    modifies de
    ensures de[..] == Patched(old(de[..]), at, [tag] + data)
  {
    hide Patched;
    ghost var was := de[..];
    PutBytes(de, at, [tag]);
    PutBytes(de, at + 1, data);
    PatchTwice(was, at, [tag], data);
  }

  /** A string or URL of `chars`: the header and then `data`, the characters with or without a terminator. */
  method PutText(de: array<byte>, at: nat, tag: byte, chars: seq<byte>, data: seq<byte>)
    requires IsTextTag(tag) && |chars| < 0x1_0000_0000
    requires at + |VarHeader(tag, |chars|) + data| <= de.Length
    modifies de
    ensures de[..] == Patched(old(de[..]), at, VarHeader(tag, |chars|) + data)
  {
    hide Patched;
    ghost var was := de[..];
    PutVarHeader(de, at, tag, |chars|);
    var _, headerSize := VarSize(|chars|, null, 0);
    PutBytes(de, at + headerSize, data);
    PatchTwice(was, at, VarHeader(tag, |chars|), data);
  }

  /** One argument that is not a sequence: it is written only if more than its own size
      remains. */
  method WriteSingle(arg: Arg, de: array<byte>, at: nat, remaining: int) returns (size: nat)
    requires SingleOk(arg)
    requires remaining > SingleSize(arg) ==> at + |SingleWritten(arg)| <= de.Length
    modifies de
    ensures size == SingleSize(arg)
    ensures de[..] == if remaining > size then Patched(old(de[..]), at, SingleWritten(arg)) else old(de[..])
  {
    if arg.ArgText? {
      var _, headerSize := VarSize(|arg.chars|, null, 0);
      size := headerSize + |arg.chars|;
      if remaining > size {
        PutText(de, at, arg.tag, arg.chars, arg.chars);
      }
    } else if arg.ArgArray? {
      size := ArraySize(arg.tag, arg.chunks);
      if remaining > size {
        ArrayWrite(de, at, arg.tag, arg.chunks);
      }
    } else {
      size := WriteFixed(arg, de, at, remaining);
    }
  }

  /** A value of a fixed size. */
  method WriteFixed(arg: Arg, de: array<byte>, at: nat, remaining: int) returns (size: nat)
    requires SingleOk(arg) && !arg.ArgText? && !arg.ArgArray?
    requires remaining > |SingleBytes(arg)| ==> at + |SingleBytes(arg)| <= de.Length
    modifies de
    ensures size == |SingleBytes(arg)|
    ensures de[..] == if remaining > size then Patched(old(de[..]), at, SingleBytes(arg)) else old(de[..])
  {
    match arg
    case ArgNil =>
      size := 1;
      if remaining > size {
        PutBytes(de, at, [NIL]);
      }
    case ArgInt(tag, value) =>
      var n := FixedSize(tag % 8);
      size := 1 + n;
      if remaining > size {
        PutTagged(de, at, tag, BigEndian(value % Range(n), n));
      }
    case ArgUuid128(bytes) =>
      size := 1 + 16;
      if remaining > size {
        PutTagged(de, at, UUID128, bytes);
      }
    case ArgBool(value) =>
      size := 1 + 1;
      if remaining > size {
        PutTagged(de, at, BOOL, [if value != 0 then 1 else 0]);
      }
  }

  // ----- the argument list -----

  /** The tokens of `items` and a closing End stand in the list from `pos` on. */
  predicate Pending(args: seq<Arg>, pos: nat, items: seq<Item>) {
    pos <= |args| && AllFlat(items) + [End] <= args[pos..]
  }

  /** The token of an item, and what is nested in it, from position `pos` on. */
  predicate Stands(args: seq<Arg>, pos: nat, item: Item) {
    && pos < |args|
    && match item
       case Single(arg) => args[pos] == arg
       case Nested(tag, items) => args[pos] == ArgOpen(tag) && Pending(args, pos + 1, items)
  }

  /** What the next token is, and what remains behind it. */
  lemma {:induction false} NextToken(args: seq<Arg>, pos: nat, items: seq<Item>)
    requires AllOk(items) && Pending(args, pos, items)
    ensures pos < |args|
    ensures items == [] ==> args[pos] == End
    ensures items != [] ==> Pending(args, pos + |Flat(items[0])|, items[1..])
    ensures items != [] ==> Stands(args, pos, items[0]) && args[pos] != End
  {
    assert args[pos..][0] == args[pos];
    if items != [] {
      var head, tail := Flat(items[0]), AllFlat(items[1..]) + [End];
      assert AllFlat(items) + [End] == head + tail;
      PrefixSplit(args[pos..], head, tail);
      assert args[pos..][|head|..] == args[pos + |head|..];
      if items[0].Nested? {
        PrefixSplit(args[pos..], [ArgOpen(items[0].tag)], AllFlat(items[0].items) + [End]);
        assert args[pos..][1..] == args[pos + 1..];
      }
    }
  }

  /** The next argument at `next` is the first of `rest`, or the closing End if `rest` is empty; after the
      last turn `rest` is empty and End is consumed, unless it was left at depth 0. */
  predicate Stage(depth: nat, args: seq<Arg>, start: nat, items: seq<Item>, next: nat, rest: seq<Item>, more: bool) {
    && start <= next <= |args| && AllOk(rest)
    && if more then
         && Pending(args, next, rest) && next + |AllFlat(rest)| == start + |AllFlat(items)|
         && (depth == 0 ==> rest == items && |items| <= 1)
       else
         rest == [] && next == start + |AllFlat(items)| + if depth == 0 && items != [] then 0 else 1
  }

  lemma StageStart(depth: nat, args: seq<Arg>, start: nat, items: seq<Item>)
    requires AllOk(items) && Pending(args, start, items) && (depth == 0 ==> |items| <= 1)
    ensures start <= |args| && Stage(depth, args, start, items, start, items, true)
  {
  }

  lemma StageEnds(depth: nat, args: seq<Arg>, start: nat, items: seq<Item>, next: nat)
    requires Stage(depth, args, start, items, next, [], true)
    ensures next < |args| && args[next] == End
    ensures Stage(depth, args, start, items, next + 1, [], false)
  {
    NextToken(args, next, []);
    Unfold([]);
  }

  lemma StageGoesOn(depth: nat, args: seq<Arg>, start: nat, items: seq<Item>, next: nat, rest: seq<Item>)
    returns (item: Item, tail: seq<Item>)
    requires Stage(depth, args, start, items, next, rest, true) && rest != []
    ensures next < |args| && Ok(item) && Stands(args, next, item)
    ensures AllOk(tail) && |tail| == |rest| - 1 && (tail == [] ==> AllSize(tail) == 0)
    ensures AllSize(rest) == ItemSize(item) + AllSize(tail)
    ensures AllWritten(rest) == Overlay(Written(item), ItemSize(item), AllWritten(tail))
    ensures next + |Flat(item)| <= |args| && Stage(depth, args, start, items, next + |Flat(item)|, tail, depth > 0)
  {
    item, tail := rest[0], rest[1..];
    NextToken(args, next, rest);
    Unfold(rest);
    Unfold(tail);
  }

  /** With room for what is left, of the given size, writing it leads to `goal`; without, nothing has been
      written. */
  predicate OnTrack(now: seq<byte>, at: nat, remaining: int, size: nat, w: seq<byte>, goal: seq<byte>) {
    if remaining > size then Completes(now, at, w, goal) else now == goal
  }

  /** The buffer at the end. */
  function Filled(was: seq<byte>, at: nat, remaining: int, size: nat, w: seq<byte>): seq<byte>
    requires remaining > size ==> at + |w| <= |was|
  {
    if remaining > size then Patched(was, at, w) else was
  }

  lemma OnTrackStart(now: seq<byte>, at: nat, remaining: int, size: nat, w: seq<byte>)
    requires remaining > size ==> at + |w| <= |now|
    ensures OnTrack(now, at, remaining, size, w, Filled(now, at, remaining, size, w))
  {
    hide Patched;
  }

  lemma OnTrackRoom(now: seq<byte>, at: nat, remaining: int, a: seq<byte>, k: nat, b: seq<byte>, size: nat,
                    goal: seq<byte>)
    requires k <= |a| && OnTrack(now, at, remaining, k + size, Overlay(a, k, b), goal)
    requires remaining <= k + size ==> remaining <= k
    ensures remaining > k ==> at + |a| <= |now|
  {
    hide Patched;
  }

  lemma OnTrackStep(was: seq<byte>, now: seq<byte>, at: nat, remaining: int, a: seq<byte>, k: nat, b: seq<byte>,
                    size: nat,
                    goal: seq<byte>)
    requires k <= |a| && OnTrack(was, at, remaining, k + size, Overlay(a, k, b), goal)
    requires remaining <= k + size ==> remaining <= k
    requires (remaining > k ==> at + |a| <= |was|) && now == Filled(was, at, remaining, k, a)
    ensures OnTrack(now, at + k, remaining - k, size, b, goal)
  {
    hide Patched, Completes, Overlay;
    if remaining > k + size {
      CompletesStep(was, now, at, a, k, b, goal);
    }
  }

  lemma OnTrackEnd(now: seq<byte>, at: nat, remaining: int, goal: seq<byte>)
    requires OnTrack(now, at, remaining, 0, [], goal)
    ensures now == goal
  {
    if remaining > 0 {
      CompletesNothing(now, at, goal);
    }
  }

  lemma {:induction false} Unfold(items: seq<Item>)
    requires AllOk(items)
    ensures items == [] ==> AllSize(items) == 0 && AllWritten(items) == [] && AllFlat(items) == []
    ensures items != [] ==> Ok(items[0]) && AllOk(items[1..])
    ensures items != [] ==> AllSize(items) == ItemSize(items[0]) + AllSize(items[1..])
    ensures items != [] ==>
      AllWritten(items) == Overlay(Written(items[0]), ItemSize(items[0]), AllWritten(items[1..]))
    ensures items != [] ==> |AllFlat(items)| == |Flat(items[0])| + |AllFlat(items[1..])|
  {
  }

  /** de_write (sdp.c:252-395). At depth 0 it takes one element, below that all up to End.
      Both passes report the same size of `items` and consume the same tokens. The sizing
      pass (a NULL buffer, `remaining` 0) leaves the buffer alone; the writing pass fills it
      only if strictly more than the size remains. What it writes may reach further. */
  method DeWrite(depth: nat, de: array<byte>, at: nat, bufferSize: nat, args: seq<Arg>, start: nat,
                 ghost items: seq<Item>)
    returns (size: nat, next: nat)
    requires AllOk(items) && AllSize(items) < 0x1_0000_0000 && Pending(args, start, items)
    requires depth == 0 ==> |items| <= 1
    requires bufferSize > AllSize(items) ==> at + |AllWritten(items)| <= de.Length
    requires depth > 0 && bufferSize > 0 ==> bufferSize > AllSize(items)
    modifies de
    ensures size == AllSize(items)
    ensures next == start + |AllFlat(items)| + (if depth == 0 && items != [] then 0 else 1)
    ensures de[..] == Filled(old(de[..]), at, bufferSize, AllSize(items), AllWritten(items))
    decreases |args| - start, 2
  {
    hide *;
    StageStart(depth, args, start, items);
    ghost var rest, total, goal := items, AllSize(items),
      Filled(de[..], at, bufferSize, AllSize(items), AllWritten(items));
    OnTrackStart(de[..], at, bufferSize, total, AllWritten(items));
    size, next := 0, start;
    var more := true;
    while more
      invariant start <= next <= |args| && AllOk(rest) && size + AllSize(rest) == total
      invariant Stage(depth, args, start, items, next, rest, more)
      invariant OnTrack(de[..], at + size, bufferSize - size, AllSize(rest), AllWritten(rest), goal)
      invariant more && 0 < bufferSize <= total ==> |rest| <= 1
      decreases more, |args| - next
    {
      var reqSize;
      reqSize, next, more, rest := WriteNext(depth, de, at + size, bufferSize - size, args, next, rest, goal, start,
          items);
      size := size + reqSize;
    }
    StageOver(depth, args, start, items, next, rest);
    OnTrackEnd(de[..], at + size, bufferSize - size, goal);
  }

  lemma StageOver(depth: nat, args: seq<Arg>, start: nat, items: seq<Item>, next: nat, rest: seq<Item>)
    requires Stage(depth, args, start, items, next, rest, false)
    ensures AllOk(rest) && AllSize(rest) == 0 && AllWritten(rest) == []
    ensures next == start + |AllFlat(items)| + (if depth == 0 && items != [] then 0 else 1)
  {
  }

  /** One turn of the loop: the argument at `pos` and everything nested in it. */
  method WriteNext(depth: nat, de: array<byte>, at: nat, remaining: int, args: seq<Arg>, pos: nat,
                   ghost rest: seq<Item>,
                   ghost goal: seq<byte>, ghost start: nat, ghost items: seq<Item>)
    returns (size: nat, next: nat, more: bool, ghost tail: seq<Item>)
    requires AllOk(rest) && AllSize(rest) < 0x1_0000_0000 && pos <= |args|
    requires Stage(depth, args, start, items, pos, rest, true)
    requires OnTrack(de[..], at, remaining, AllSize(rest), AllWritten(rest), goal)
    requires remaining <= AllSize(rest) ==> remaining <= 0 || |rest| <= 1
    modifies de
    ensures pos < next <= |args| && AllOk(tail) && size + AllSize(tail) == AllSize(rest)
    ensures Stage(depth, args, start, items, next, tail, more) && |tail| <= |rest|
    ensures OnTrack(de[..], at + size, remaining - size, AllSize(tail), AllWritten(tail), goal)
    decreases |args| - pos, 1
  {
    hide *;
    StageInside(depth, args, start, items, pos, rest);
    if args[pos] == End {
      StageEnds(depth, args, start, items, pos);
      return 0, pos + 1, false, [];
    }
    ghost var item;
    item, tail := StageGoesOn(depth, args, start, items, pos, rest);
    OnTrackRoom(de[..], at, remaining, Written(item), ItemSize(item), AllWritten(tail), AllSize(tail), goal);
    ghost var was := de[..];
    size, next := WriteItem(depth, de, at, remaining, args, pos, item);
    OnTrackStep(was, de[..], at, remaining, Written(item), size, AllWritten(tail), AllSize(tail), goal);
    more := depth > 0;
  }

  lemma StageInside(depth: nat, args: seq<Arg>, start: nat, items: seq<Item>, pos: nat, rest: seq<Item>)
    requires Stage(depth, args, start, items, pos, rest, true)
    ensures pos < |args| && (args[pos] == End <==> rest == [])
  {
    NextToken(args, pos, rest);
  }

  method WriteItem(depth: nat, de: array<byte>, at: nat, remaining: int, args: seq<Arg>, pos: nat, ghost item: Item)
    returns (size: nat, next: nat)
    requires Ok(item) && Stands(args, pos, item) && ItemSize(item) < 0x1_0000_0000
    requires remaining > ItemSize(item) ==> at + |Written(item)| <= de.Length
    modifies de
    ensures size == ItemSize(item) && next == pos + |Flat(item)|
    ensures de[..] == Filled(old(de[..]), at, remaining, ItemSize(item), Written(item))
    decreases |args| - pos, 0
  {
    hide AllSize, AllWritten, AllFlat, Patched, Pending, AllOk, SingleWritten;
    var arg := args[pos];
    if arg.ArgOpen? {
      size, next := WriteGroup(depth, de, at, remaining, arg.tag, args, pos + 1, item.items);
    } else {
      size := WriteSingle(arg, de, at, remaining);
      next := pos + 1;
    }
  }

  /** The sequence and choice case (sdp.c:356-374): size the contents, then write them from a
      copy of the argument position. */
  method WriteGroup(depth: nat, de: array<byte>, at: nat, remaining: int, tag: byte, args: seq<Arg>, pos: nat,
                    ghost items: seq<Item>)
    returns (size: nat, next: nat)
    requires AllOk(items) && IsGroupTag(tag) && Pending(args, pos, items)
    requires ItemSize(Nested(tag, items)) < 0x1_0000_0000
    requires remaining > ItemSize(Nested(tag, items)) ==> at + |Written(Nested(tag, items))| <= de.Length
    modifies de
    ensures size == ItemSize(Nested(tag, items))
    ensures next == pos + |AllFlat(items)| + 1
    ensures de[..] == if remaining > size then Patched(old(de[..]), at, Written(Nested(tag, items))) else old(de[..])
    decreases |args| - pos, 3
  {
    var len;
    len, next := DeWrite(depth + 1, de, at, 0, args, pos, items);
    var _, headerSize := VarSize(len, null, 0);
    size := headerSize + len;
    if remaining > size {
      ghost var was := de[..];
      PutVarHeader(de, at, tag, len);
      var _, _ := DeWrite(depth + 1, de, at + headerSize, remaining - headerSize, args, pos, items);
      PatchTwice(was, at, VarHeader(tag, len), AllWritten(items));
    }
  }

  /** bte_sdp_de_write: one element (or none) into a buffer. It appears there exactly when the buffer is
      larger than the returned size; a buffer of just that size stays as it was. Of what is behind the
      element, only the next byte may change: it becomes 0 if and only if the last thing written is a
      non-empty array of strings or URLs. */
  method Write(de: array<byte>, bufferSize: nat, args: seq<Arg>, ghost items: seq<Item>) returns (size: nat)
    requires AllOk(items) && AllAgree(items) && |items| <= 1 && Pending(args, 0, items)
    requires |AllBytes(items)| < 0x1_0000_0000 && bufferSize <= de.Length
    modifies de
    ensures AllWellFormed(AllElements(items)) && size == |EncodeAll(AllElements(items))|
    ensures bufferSize <= size ==> de[..] == old(de[..])
    ensures bufferSize > size ==>
      && de[..size] == EncodeAll(AllElements(items))
      && de[size] == (if AllEndInText(items) then 0 else old(de[size]))
      && de[size + 1..] == old(de[size + 1..])
  {
    BytesAreEncoding(items);
    AgreeingHasNoNil(items);
    SizeIsExactWithoutNilArrays(items);
    WrittenWithoutNilArrays(items);
    ghost var was, bytes, z := de[..], AllBytes(items), Terminator(AllEndInText(items));
    var written, _ := DeWrite(0, de, 0, bufferSize, args, 0, items);
    size := written;
    if bufferSize > size {
      BehindElement(was, de[..], bytes, z);
    }
  }

  lemma BehindElement(was: seq<byte>, now: seq<byte>, bytes: seq<byte>, z: seq<byte>)
    requires |bytes| < |was| && (z == [] || z == [0]) && now == Patched(was, 0, bytes + z)
    ensures now[..|bytes|] == bytes && now[|bytes| + 1..] == was[|bytes| + 1..]
    ensures now[|bytes|] == if z == [0] then 0 else was[|bytes|]
  {
    assert now[..|bytes|] == (bytes + z)[..|bytes|];
  }

  /** The promise that a first call returns the size needed (sdp.h:64-66), taken literally:
      a buffer of that size receives nothing. Only one byte more will do. */
  method ExactSizeIsNotEnough() returns (needed: nat, untouched: seq<byte>, written: seq<byte>)
    ensures |untouched| == needed && untouched == [0, 0]
    ensures |written| == needed + 1 && written == [UINT8, 7, 0]
  {
    var args := [ArgInt(UINT8, 7), End];
    ghost var items := [Single(ArgInt(UINT8, 7))];
    OneInt(items);
    var exact := new byte[2](_ => 0);
    var next;
    needed, next := DeWrite(0, exact, 0, 0, args, 0, items);
    assert exact[..] == [0, 0];
    var size := Write(exact, needed, args, items);
    untouched := exact[..];
    var larger := new byte[3](_ => 0);
    assert larger[..] == [0, 0, 0];
    size := Write(larger, needed + 1, args, items);
    written := larger[..];
  }

  lemma {:induction false} OneInt(items: seq<Item>)
    requires items == [Single(ArgInt(UINT8, 7))]
    ensures AllOk(items) && AllAgree(items) && Pending([ArgInt(UINT8, 7), End], 0, items)
    ensures AllSize(items) == 2 && AllWritten(items) == AllBytes(items) == EncodeAll(AllElements(items)) == [UINT8, 7]
    ensures !AllEndInText(items)
  {
    assert AllOk(items[1..]) && AllAgree(items[1..]);
    assert AllFlat(items) == [ArgInt(UINT8, 7)] + AllFlat(items[1..]);
    assert BigEndian(7, 1) == BigEndian(0, 0) + [7];
    Ranges();
    assert AllBytes(items) == SingleBytes(items[0].arg) + AllBytes(items[1..]);
    SizeIsExactWithoutNilArrays(items);
    WrittenWithoutNilArrays(items);
    BytesAreEncoding(items);
  }

  /** The terminator at work: the byte behind an array of one string becomes 0. */
  method TerminatorBehindText() returns (needed: nat, after: seq<byte>)
    ensures needed == 4 && after == [STRING + 5, 2, 65, 66, 0, 77]
  {
    var args := [ArgArray(STRING, [[65, 66]]), End];
    ghost var items := [Single(ArgArray(STRING, [[65, 66]]))];
    OneTextArray(items);
    var de := new byte[6](_ => 77);
    ghost var was := de[..];
    needed := Write(de, 6, args, items);
    after := de[..];
    assert after[5] == after[5..][0] == was[5..][0] == 77;
    assert after == after[..4] + [after[4]] + [after[5]];
  }

  lemma {:induction false} OneTextArray(items: seq<Item>)
    requires items == [Single(ArgArray(STRING, [[65, 66]]))]
    ensures AllOk(items) && AllAgree(items) && Pending([ArgArray(STRING, [[65, 66]]), End], 0, items)
    ensures AllBytes(items) == EncodeAll(AllElements(items)) == [STRING + 5, 2, 65, 66] && AllEndInText(items)
  {
    var arg, chunks: seq<seq<byte>> := items[0].arg, [[65, 66]];
    assert SingleOk(arg) && Agrees(items[0]);
    assert AllOk(items[1..]) && AllAgree(items[1..]) && AllBytes(items[1..]) == [];
    assert AllFlat(items) == [arg] + AllFlat(items[1..]);
    assert BigEndian(2, 1) == BigEndian(0, 0) + [2];
    assert VarHeader(STRING, 2) == [STRING + 5, 2];
    assert chunks[1..] == [] && ArrayBytes(STRING, chunks[1..]) == [];
    assert ArrayBytes(STRING, chunks) == ChunkBytes(STRING, [65, 66]) + [];
    assert AllBytes(items) == SingleBytes(arg) + [];
    BytesAreEncoding(items);
  }

  /** An array of NIL: the sizing pass counts one byte for an entry, the writing pass writes two, and writes
      them past the end of a buffer that is large enough for the size reported. */
  method NilArrayOverruns() returns (needed: nat, bufferSize: nat, after: seq<byte>)
    ensures needed < bufferSize == 4 && after == [NIL, 7, NIL, 7, NIL, 7, 99, 99]
  {
    var args := [ArgArray(NIL, [[7], [7], [7]]), End];
    ghost var items := [Single(ArgArray(NIL, [[7], [7], [7]]))];
    ThreeNils(items);
    var de := new byte[8](_ => 99);
    bufferSize := 4;
    ghost var was := de[..];
    assert was[6..] == [99, 99];
    var next;
    needed, next := DeWrite(0, de, 0, bufferSize, args, 0, items);
    after := de[..];
    assert after == [NIL, 7, NIL, 7, NIL, 7] + was[6..];
  }

  lemma {:induction false} ThreeNils(items: seq<Item>)
    requires items == [Single(ArgArray(NIL, [[7], [7], [7]]))]
    ensures AllOk(items) && Pending([ArgArray(NIL, [[7], [7], [7]]), End], 0, items)
    ensures AllSize(items) == 3 && AllWritten(items) == [NIL, 7, NIL, 7, NIL, 7]
  {
    var arg, c3: seq<seq<byte>>, c2: seq<seq<byte>>, c1: seq<seq<byte>> := items[0].arg, [[7], [7], [7]], [[7], [7]],
      [[7]];
    assert SingleOk(arg) && AllOk(items[1..]) && AllWritten(items[1..]) == [];
    assert AllFlat(items) == [arg] + AllFlat(items[1..]);
    assert Reverse([7]) == Reverse([7][1..]) + [7];
    assert c3[1..] == c2 && c2[1..] == c1 && c1[1..] == [];
    assert ArrayBytes(NIL, c1) == [NIL, 7] + ArrayBytes(NIL, []);
    assert ArrayBytes(NIL, c2) == [NIL, 7] + ArrayBytes(NIL, c1);
    assert ArrayBytes(NIL, c3) == [NIL, 7] + ArrayBytes(NIL, c2);
    assert Written(items[0]) == ArrayBytes(NIL, c3) + [];
  }
}
