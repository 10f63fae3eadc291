/** The argument list of `bte_sdp_de_write`, and the bytes and the elements it stands for.
    Every variadic argument group (a type and its value) is one token. */
module SdpArgs {
  import opened Bytes
  import opened ByteArrays
  import opened SdpElement

  datatype Arg =
    | End
    | ArgNil
    | ArgInt(tag: byte, value: int)
    | ArgUuid128(bytes: seq<byte>)
    | ArgBool(value: int)
    | ArgText(tag: byte, chars: seq<byte>)
    | ArgOpen(tag: byte)
    | ArgArray(tag: byte, chunks: seq<seq<byte>>)

  /** The nesting that a list of tokens describes. */
  datatype Item = Single(arg: Arg) | Nested(tag: byte, items: seq<Item>)

  predicate IsIntTag(tag: byte) {
    0x08 <= tag <= 0x0c || 0x10 <= tag <= 0x14 || tag == UUID16 || tag == UUID32
  }

  /** Types of which `de_write` takes arrays: fixed sizes (in host byte order) and strings. NIL is among
      them, and is taken for a type with one byte of data. */
  predicate IsArrayOfFixed(tag: byte) {
    tag == NIL || (IsScalarTag(tag) && (tag <= UUID128 || tag == BOOL))
  }

  predicate SingleOk(arg: Arg) {
    match arg
    case End => false
    case ArgNil => true
    case ArgInt(tag, _) => IsIntTag(tag)
    case ArgUuid128(bytes) => |bytes| == 16
    case ArgBool(_) => true
    case ArgText(tag, chars) => IsTextTag(tag) && |chars| < 0x1_0000_0000
    case ArgOpen(_) => false
    case ArgArray(tag, chunks) =>
      || (IsArrayOfFixed(tag) && forall i :: 0 <= i < |chunks| ==> |chunks[i]| == FixedSize(tag % 8))
      || (IsTextTag(tag) && forall i :: 0 <= i < |chunks| ==> |chunks[i]| < 0x1_0000_0000)
  }

  predicate Ok(item: Item)
    decreases item
  {
    match item
    case Single(arg) => SingleOk(arg)
    case Nested(tag, items) => IsGroupTag(tag) && AllOk(items)
  }

  predicate AllOk(items: seq<Item>)
    decreases items
  {
    items == [] || (Ok(items[0]) && AllOk(items[1..]))
  }

  // ----- tokens -----

  function Flat(item: Item): (s: seq<Arg>)
    ensures |s| >= 1
    decreases item
  {
    match item
    case Single(arg) => [arg]
    case Nested(tag, items) => [ArgOpen(tag)] + (AllFlat(items) + [End])
  }

  function AllFlat(items: seq<Item>): seq<Arg>
    decreases items
  {
    if items == [] then [] else Flat(items[0]) + AllFlat(items[1..])
  }

  // ----- bytes -----

  /** The shortest header form for a length (sdp.c:173-190). */
  function VarForm(len: nat): byte {
    if len < 0x100 then 5 else if len < 0x1_0000 then 6 else 7
  }

  /** The header form is the shortest that can hold the length. */
  lemma ShortestForm(len: nat, form: byte)
    requires len < 0x1_0000_0000
    ensures 5 <= VarForm(len) <= 7 && len < Range(LengthBytes(VarForm(len)))
    ensures 5 <= form < VarForm(len) ==> len >= Range(LengthBytes(form))
  {
    Ranges();
    hide Range;
  }

  function VarHeader(tag: byte, len: nat): seq<byte> {
    Header(tag, VarForm(len), len)
  }

  function Reverse(s: seq<byte>): (r: seq<byte>)
    ensures |r| == |s|
    ensures forall i :: 0 <= i < |s| ==> r[i] == s[|s| - 1 - i]
  {
    if s == [] then [] else Reverse(s[1..]) + [s[0]]
  }

  /** One array element: fixed-size data is turned from host (little-endian) order. */
  function ChunkBytes(tag: byte, chunk: seq<byte>): seq<byte> {
    if IsTextTag(tag) then VarHeader(tag, |chunk|) + chunk else [tag] + Reverse(chunk)
  }

  function ArrayBytes(tag: byte, chunks: seq<seq<byte>>): seq<byte> {
    if chunks == [] then [] else ChunkBytes(tag, chunks[0]) + ArrayBytes(tag, chunks[1..])
  }

  function SingleBytes(arg: Arg): seq<byte>
    requires SingleOk(arg)
  {
    match arg
    case ArgNil => [NIL]
    case ArgInt(tag, value) => var n := FixedSize(tag % 8); [tag] + BigEndian(value % Range(n), n)
    case ArgUuid128(bytes) => [UUID128] + bytes
    case ArgBool(value) => [BOOL, if value != 0 then 1 else 0]
    case ArgText(tag, chars) => VarHeader(tag, |chars|) + chars
    case ArgArray(tag, chunks) => ArrayBytes(tag, chunks)
  }

  function ItemBytes(item: Item): seq<byte>
    requires Ok(item)
    decreases item
  {
    match item
    case Single(arg) => SingleBytes(arg)
    case Nested(tag, items) => VarHeader(tag, |AllBytes(items)|) + AllBytes(items)
  }

  function AllBytes(items: seq<Item>): seq<byte>
    requires AllOk(items)
    decreases items
  {
    if items == [] then [] else ItemBytes(items[0]) + AllBytes(items[1..])
  }

  // ----- what the two passes really do -----

  /** The size the sizing pass reports: entries of a NIL array count one byte although two are written. */
  function SingleSize(arg: Arg): nat
    requires SingleOk(arg)
  {
    if arg.ArgArray? && arg.tag == NIL then |arg.chunks| else |SingleBytes(arg)|
  }

  function ItemSize(item: Item): nat
    requires Ok(item)
    decreases item
  {
    match item
    case Single(arg) => SingleSize(arg)
    case Nested(tag, items) => |VarHeader(tag, AllSize(items))| + AllSize(items)
  }

  function AllSize(items: seq<Item>): nat
    requires AllOk(items)
    decreases items
  {
    if items == [] then 0 else ItemSize(items[0]) + AllSize(items[1..])
  }

  /** `b` written over `a` from position k on, past its end if need be. */
  function Overlay(a: seq<byte>, k: nat, b: seq<byte>): (r: seq<byte>)
    requires k <= |a|
    ensures |r| == if k + |b| <= |a| then |a| else k + |b|
  {
    if k + |b| <= |a| then Patched(a, k, b) else a[..k] + b
  }

  /** Array entries as written: strings and URLs are copied with their terminator, which the next entry
      writes over. */
  function ArrayWritten(tag: byte, chunks: seq<seq<byte>>): (w: seq<byte>)
    ensures |w| >= |ArrayBytes(tag, chunks)|
  {
    ArrayBytes(tag, chunks) + if IsTextTag(tag) && chunks != [] then [0] else []
  }

  function SingleWritten(arg: Arg): (w: seq<byte>)
    requires SingleOk(arg)
    ensures |w| >= SingleSize(arg)
  {
    if arg.ArgArray? then
      NilArrayBytes(arg.tag, arg.chunks);
      ArrayWritten(arg.tag, arg.chunks)
    else SingleBytes(arg)
  }

  /** All bytes the writing pass writes, in place: what an item writes beyond its reported size is
      written over by the items behind it. */
  function Written(item: Item): (w: seq<byte>)
    requires Ok(item)
    ensures |w| >= ItemSize(item)
    decreases item
  {
    match item
    case Single(arg) => SingleWritten(arg)
    case Nested(tag, items) => VarHeader(tag, AllSize(items)) + AllWritten(items)
  }

  function AllWritten(items: seq<Item>): (w: seq<byte>)
    requires AllOk(items)
    ensures |w| >= AllSize(items)
    decreases items
  {
    if items == [] then [] else Overlay(Written(items[0]), ItemSize(items[0]), AllWritten(items[1..]))
  }

  lemma {:induction false} NilArrayBytes(tag: byte, chunks: seq<seq<byte>>)
    requires SingleOk(ArgArray(tag, chunks))
    ensures tag == NIL ==> |ArrayBytes(tag, chunks)| == 2 * |chunks|
  {
    if chunks == [] {
    } else {
      NilArrayBytes(tag, chunks[1..]);
    }
  }

  /** No array of NIL with an entry in it. */
  predicate NoNilArray(item: Item)
    decreases item
  {
    match item
    case Single(arg) => arg.ArgArray? && arg.tag == NIL ==> arg.chunks == []
    case Nested(_, items) => NoNilArrays(items)
  }

  predicate NoNilArrays(items: seq<Item>)
    decreases items
  {
    items == [] || (NoNilArray(items[0]) && NoNilArrays(items[1..]))
  }

  /** The last bytes are those of a non-empty array of strings or URLs. */
  predicate EndsInText(item: Item)
    requires Ok(item)
    decreases item
  {
    match item
    case Single(arg) => arg.ArgArray? && IsTextTag(arg.tag) && arg.chunks != []
    case Nested(_, items) => AllEndInText(items)
  }

  predicate AllEndInText(items: seq<Item>)
    requires AllOk(items)
    decreases items
  {
    items != [] && if AllBytes(items[1..]) == [] then EndsInText(items[0]) else AllEndInText(items[1..])
  }

  function Terminator(ends: bool): seq<byte> {
    if ends then [0] else []
  }

  /** The sizing pass never reports too much, and reports just what the items take exactly if no NIL array
      with an entry is among them. */
  lemma {:induction false} SizeIsExactWithoutNilArrays(items: seq<Item>)
    requires AllOk(items)
    ensures AllSize(items) <= |AllBytes(items)|
    ensures AllSize(items) == |AllBytes(items)| <==> NoNilArrays(items)
    decreases items
  {
    if items == [] {
    } else {
      SizeIsExactWithoutNilArray(items[0]);
      SizeIsExactWithoutNilArrays(items[1..]);
    }
  }

  lemma {:induction false} SizeIsExactWithoutNilArray(item: Item)
    requires Ok(item)
    ensures ItemSize(item) <= |ItemBytes(item)|
    ensures ItemSize(item) == |ItemBytes(item)| <==> NoNilArray(item)
    decreases item
  {
    match item
    case Single(arg) =>
      if arg.ArgArray? {
        NilArrayBytes(arg.tag, arg.chunks);
      }
    case Nested(tag, items) => SizeIsExactWithoutNilArrays(items);
  }

  /** Without such arrays the writing pass writes the bytes of the items and nothing else, but for one
      terminator behind them if a non-empty array of strings or URLs comes last. */
  lemma {:induction false} WrittenWithoutNilArrays(items: seq<Item>)
    requires AllOk(items) && NoNilArrays(items)
    ensures AllWritten(items) == AllBytes(items) + Terminator(AllEndInText(items))
    decreases items
  {
    if items != [] {
      var tail := items[1..];
      WrittenWithoutNilArray(items[0]);
      WrittenWithoutNilArrays(tail);
      SizeIsExactWithoutNilArray(items[0]);
      NothingEndsNot(tail);
      OverlayBehind(ItemBytes(items[0]), Terminator(EndsInText(items[0])), AllBytes(tail),
          Terminator(AllEndInText(tail)));
    } else {
      assert AllBytes(items) + [] == [];
    }
  }

  lemma {:induction false} WrittenWithoutNilArray(item: Item)
    requires Ok(item) && NoNilArray(item)
    ensures Written(item) == ItemBytes(item) + Terminator(EndsInText(item))
    decreases item
  {
    match item
    case Single(arg) =>
      assert SingleBytes(arg) + [] == SingleBytes(arg);
    case Nested(tag, items) =>
      WrittenWithoutNilArrays(items);
      SizeIsExactWithoutNilArrays(items);
      Associative(VarHeader(tag, AllSize(items)), AllBytes(items), Terminator(AllEndInText(items)));
  }

  lemma {:induction false} NothingEndsNot(items: seq<Item>)
    requires AllOk(items)
    ensures AllBytes(items) == [] ==> !AllEndInText(items)
    decreases items
  {
    if items != [] {
      assert |AllBytes(items)| == |ItemBytes(items[0])| + |AllBytes(items[1..])|;
      if EndsInText(items[0]) {
        EndsWithSomething(items[0]);
      }
    }
  }

  lemma EndsWithSomething(item: Item)
    requires Ok(item) && EndsInText(item)
    ensures ItemBytes(item) != []
  {
    if item.Single? {
      assert |SingleBytes(item.arg)| >= |ChunkBytes(item.arg.tag, item.arg.chunks[0])| > 0;
    }
  }

  lemma OverlayBehind(a: seq<byte>, z: seq<byte>, b: seq<byte>, y: seq<byte>)
    requires |z| <= 1
    ensures b != [] ==> Overlay(a + z, |a|, b + y) == a + b + y
    ensures b == [] && y == [] ==> Overlay(a + z, |a|, b + y) == a + b + z
  {
    if b != [] {
      assert (a + z)[..|a|] == a;
      Associative(a, b, y);
    }
  }

  // ----- elements -----

  function IntElement(tag: byte, value: nat): Element {
    Scalar(tag, BigEndian(value, FixedSize(tag % 8)))
  }

  /** One element per array entry: the entry written on its own. */
  function ChunkElement(tag: byte, chunk: seq<byte>): Element {
    if IsTextTag(tag) then Text(tag, VarForm(|chunk|), chunk)
    else if tag == NIL then Nil
    else if tag == UUID128 then Scalar(tag, chunk)
    else if tag == BOOL then Scalar(tag, [if FromLittleEndian(chunk) != 0 then 1 else 0])
    else IntElement(tag, FromLittleEndian(chunk))
  }

  function ChunkElements(tag: byte, chunks: seq<seq<byte>>): seq<Element> {
    if chunks == [] then [] else [ChunkElement(tag, chunks[0])] + ChunkElements(tag, chunks[1..])
  }

  function Elements(item: Item): seq<Element>
    requires Ok(item)
    decreases item
  {
    match item
    case Single(arg) => SingleElements(arg)
    case Nested(tag, items) =>
      var elements := AllElements(items); [Group(tag, VarForm(|EncodeAll(elements)|), elements)]
  }

  function AllElements(items: seq<Item>): seq<Element>
    requires AllOk(items)
    decreases items
  {
    if items == [] then [] else Elements(items[0]) + AllElements(items[1..])
  }

  function SingleElements(arg: Arg): seq<Element>
    requires SingleOk(arg)
  {
    match arg
    case ArgNil => [Nil]
    case ArgInt(tag, value) => [IntElement(tag, value % Range(FixedSize(tag % 8)))]
    case ArgUuid128(bytes) => [Scalar(UUID128, bytes)]
    case ArgBool(value) => [Scalar(BOOL, [if value != 0 then 1 else 0])]
    case ArgText(tag, chars) => [Text(tag, VarForm(|chars|), chars)]
    case ArgArray(tag, chunks) => ChunkElements(tag, chunks)
  }

  /** Entries that the array path writes exactly as the single-value path would: every
      integer, short UUID, string and URL, but a boolean only if it is stored as 0 or 1, a
      128-bit UUID only if it reads the same backwards, and nil never. */
  predicate ChunkAgrees(tag: byte, chunk: seq<byte>) {
    && tag != NIL
    && (tag == UUID128 ==> Reverse(chunk) == chunk)
    && (tag == BOOL ==> chunk == [0] || chunk == [1])
  }

  predicate Agrees(item: Item)
    decreases item
  {
    match item
    case Single(arg) =>
      arg.ArgArray? ==> forall i :: 0 <= i < |arg.chunks| ==> ChunkAgrees(arg.tag, arg.chunks[i])
    case Nested(_, items) => AllAgree(items)
  }

  predicate AllAgree(items: seq<Item>)
    decreases items
  {
    items == [] || (Agrees(items[0]) && AllAgree(items[1..]))
  }

  lemma {:induction false} AgreeingHasNoNil(items: seq<Item>)
    requires AllAgree(items)
    ensures NoNilArrays(items)
    decreases items
  {
    if items == [] {
    } else {
      AgreeingItemHasNoNil(items[0]);
      AgreeingHasNoNil(items[1..]);
    }
  }

  lemma {:induction false} AgreeingItemHasNoNil(item: Item)
    requires Agrees(item)
    ensures NoNilArray(item)
    decreases item
  {
    match item
    case Single(arg) => assert arg.ArgArray? && arg.chunks != [] ==> ChunkAgrees(arg.tag, arg.chunks[0]);
    case Nested(_, items) => AgreeingHasNoNil(items);
  }

  lemma {:induction false} BigEndianOfLittle(chunk: seq<byte>)
    ensures BigEndian(FromLittleEndian(chunk), |chunk|) == Reverse(chunk)
  {
    if chunk == [] {
    } else {
      BigEndianOfLittle(chunk[1..]);
      assert FromLittleEndian(chunk) / 256 == FromLittleEndian(chunk[1..]);
      assert FromLittleEndian(chunk) % 256 == chunk[0];
    }
  }

  /** An array entry is written as the single value exactly when it agrees. */
  lemma {:induction false} ChunkWrittenAsElement(tag: byte, chunk: seq<byte>)
    requires IsArrayOfFixed(tag) ==> |chunk| == FixedSize(tag % 8)
    requires IsTextTag(tag) || IsArrayOfFixed(tag)
    ensures ChunkBytes(tag, chunk) == Encode(ChunkElement(tag, chunk)) <==> ChunkAgrees(tag, chunk)
  {
    if IsTextTag(tag) {
    } else if tag == NIL {
      assert |ChunkBytes(tag, chunk)| == 2 && Encode(Nil) == [NIL];
    } else if tag == UUID128 {
      assert ([tag] + Reverse(chunk))[1..] == Reverse(chunk);
      assert ([tag] + chunk)[1..] == chunk;
    } else if tag == BOOL {
      BoolChunk(chunk);
    } else {
      BigEndianOfLittle(chunk);
    }
  }

  lemma {:induction false} BoolChunk(chunk: seq<byte>)
    requires |chunk| == 1
    ensures FromLittleEndian(chunk) == chunk[0]
    ensures [BOOL] + Reverse(chunk) == [BOOL] + [if chunk[0] != 0 then 1 else 0] <==> chunk == [0] || chunk == [1]
  {
    assert FromLittleEndian(chunk[1..]) == 0;
    assert Reverse(chunk) == chunk;
    assert ([BOOL] + chunk)[1] == chunk[0];
    assert ([BOOL] + [if chunk[0] != 0 then 1 else 0])[1] == if chunk[0] != 0 then 1 else 0;
  }

  /** So an array gives the same bytes as its entries written one by one. */
  lemma {:induction false} ArrayWrittenAsElements(tag: byte, chunks: seq<seq<byte>>)
    requires SingleOk(ArgArray(tag, chunks))
    requires forall i :: 0 <= i < |chunks| ==> ChunkAgrees(tag, chunks[i])
    ensures ArrayBytes(tag, chunks) == EncodeAll(ChunkElements(tag, chunks))
  {
    if chunks == [] {
    } else {
      ChunkWrittenAsElement(tag, chunks[0]);
      ArrayWrittenAsElements(tag, chunks[1..]);
      Cons(ChunkElement(tag, chunks[0]), ChunkElements(tag, chunks[1..]));
    }
  }

  lemma {:induction false} EncodeAppend(a: seq<Element>, b: seq<Element>)
    ensures EncodeAll(a + b) == EncodeAll(a) + EncodeAll(b)
    ensures AllWellFormed(a + b) <==> AllWellFormed(a) && AllWellFormed(b)
    decreases a
  {
    if a == [] {
      assert a + b == b;
    } else {
      EncodeAppend(a[1..], b);
      assert (a + b)[1..] == a[1..] + b && (a + b)[0] == a[0];
      hide Encode, WellFormed;
      Associative(Encode(a[0]), EncodeAll(a[1..]), EncodeAll(b));
    }
  }

  /** What the argument list stands for: the bytes are the encoding of its elements, and the
      elements are well formed. */
  lemma {:induction false} BytesAreEncoding(items: seq<Item>)
    requires AllOk(items) && AllAgree(items) && |AllBytes(items)| < 0x1_0000_0000
    ensures AllBytes(items) == EncodeAll(AllElements(items)) && AllWellFormed(AllElements(items))
    decreases items
  {
    if items == [] {
    } else {
      ItemIsEncoding(items[0]);
      BytesAreEncoding(items[1..]);
      EncodeAppend(Elements(items[0]), AllElements(items[1..]));
    }
  }

  lemma {:induction false} ItemIsEncoding(item: Item)
    requires Ok(item) && Agrees(item) && |ItemBytes(item)| < 0x1_0000_0000
    ensures ItemBytes(item) == EncodeAll(Elements(item)) && AllWellFormed(Elements(item))
    decreases item
  {
    match item
    case Single(arg) => SingleIsEncoding(arg);
    case Nested(tag, items) =>
      BytesAreEncoding(items);
      VarFormFits(|AllBytes(items)|);
      Cons(Elements(item)[0], []);
  }

  lemma VarFormFits(len: nat)
    requires len < 0x1_0000_0000
    ensures len < Range(LengthBytes(VarForm(len)))
  {
    Ranges();
  }

  lemma {:induction false} SingleIsEncoding(arg: Arg)
    requires SingleOk(arg) && Agrees(Single(arg))
    ensures SingleBytes(arg) == EncodeAll(SingleElements(arg)) && AllWellFormed(SingleElements(arg))
  {
    if arg.ArgArray? {
      ArrayWrittenAsElements(arg.tag, arg.chunks);
      ChunksWellFormed(arg.tag, arg.chunks);
    } else {
      if arg.ArgText? {
        VarFormFits(|arg.chars|);
      }
      var e := SingleElements(arg)[0];
      OneElement(e);
      OneValueIsEncoding(arg, e);
    }
  }

  lemma OneValueIsEncoding(arg: Arg, e: Element)
    requires SingleOk(arg) && !arg.ArgArray? && SingleElements(arg) == [e]
    requires arg.ArgText? ==> |arg.chars| < Range(LengthBytes(VarForm(|arg.chars|)))
    ensures SingleBytes(arg) == Encode(e) && WellFormed(e)
  {
    hide EncodeAll, AllWellFormed, BigEndian, Range, Header;
  }

  lemma OneElement(e: Element)
    ensures EncodeAll([e]) == Encode(e) && AllWellFormed([e]) == WellFormed(e)
  {
    assert [e][1..] == [] && Encode(e) + [] == Encode(e);
  }

  lemma {:induction false} ChunksWellFormed(tag: byte, chunks: seq<seq<byte>>)
    requires SingleOk(ArgArray(tag, chunks))
    ensures AllWellFormed(ChunkElements(tag, chunks))
  {
    if chunks == [] {
    } else {
      ChunksWellFormed(tag, chunks[1..]);
      if IsTextTag(tag) {
        VarFormFits(|chunks[0]|);
      }
      Cons(ChunkElement(tag, chunks[0]), ChunkElements(tag, chunks[1..]));
    }
  }

  /** Entries that are not written like the value itself: a boolean stored as 2, a 128-bit UUID, and nil. */
  lemma SomeChunksDisagree()
    ensures ChunkBytes(BOOL, [2]) == [BOOL, 2] && Encode(ChunkElement(BOOL, [2])) == [BOOL, 1]
    ensures ChunkBytes(NIL, [7]) == [NIL, 7] && Encode(ChunkElement(NIL, [7])) == [NIL]
    ensures
      var uuid := seq(16, i requires 0 <= i < 16 => i as byte);
      ChunkBytes(UUID128, uuid) != Encode(ChunkElement(UUID128, uuid))
  {
    assert Reverse([2]) == Reverse([2][1..]) + [2];
    assert Reverse([7]) == Reverse([7][1..]) + [7];
    assert FromLittleEndian([2]) == 2 + 256 * FromLittleEndian([2][1..]);
    var uuid := seq(16, i requires 0 <= i < 16 => i as byte);
    assert Reverse(uuid)[0] == 15 && uuid[0] == 0;
    ChunkWrittenAsElement(UUID128, uuid);
  }
}
