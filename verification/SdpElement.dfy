/** SDP data elements (section 3 of Vol 3 Part B of the Bluetooth Core specification):
    the element tree, its byte encoding, the header accessors of services/sdp.c and a
    decoder built only from those accessors. */
module SdpElement {
  import opened Prelude
  import opened Bytes

  const NIL: byte := 0x00
  const UINT8: byte := 0x08
  const UUID16: byte := 0x19
  const UUID32: byte := 0x1a
  const UUID128: byte := 0x1c
  const STRING: byte := 0x20
  const BOOL: byte := 0x28
  const SEQUENCE: byte := 0x30
  const CHOICE: byte := 0x38
  const URL: byte := 0x40

  /** `form` is the size index of a variable-length header: 5, 6 or 7 for a length of
      one, two or four bytes. A peer may choose a longer form than needed. */
  datatype Element =
    | Nil
    | Scalar(tag: byte, payload: seq<byte>)
    | Text(tag: byte, form: byte, chars: seq<byte>)
    | Group(tag: byte, form: byte, items: seq<Element>)

  /** Number of length bytes that follow a tag with this size index. */
  function LengthBytes(sizeId: byte): nat {
    if sizeId == 5 then 1 else if sizeId == 6 then 2 else if sizeId == 7 then 4 else 0
  }

  /** Payload size of a fixed-length element: one shifted left by the size index. */
  function FixedSize(sizeId: byte): nat {
    match sizeId
    case 0 => 1
    case 1 => 2
    case 2 => 4
    case 3 => 8
    case _ => 16
  }

  predicate IsScalarTag(tag: byte) {
    tag != NIL && tag % 8 <= 4 && (tag < STRING || tag / 8 == BOOL / 8)
  }

  predicate IsTextTag(tag: byte) {
    tag == STRING || tag == URL
  }

  predicate IsGroupTag(tag: byte) {
    tag == SEQUENCE || tag == CHOICE
  }

  // ----- header accessors: `de` is what the pointer argument points at -----

  predicate HeaderFits(de: seq<byte>) {
    |de| > 0 && |de| >= HeaderSize(de)
  }

  function HeaderSize(de: seq<byte>): nat
    requires |de| > 0
  {
    1 + LengthBytes(de[0] % 8)
  }

  function DataSize(de: seq<byte>): nat
    requires HeaderFits(de)
  {
    var sizeId := de[0] % 8;
    if sizeId >= 5 then FromBigEndian(de[1..HeaderSize(de)])
    else if de[0] == NIL then 0
    else FixedSize(sizeId)
  }

  function TotalSize(de: seq<byte>): nat
    requires HeaderFits(de)
  {
    HeaderSize(de) + DataSize(de)
  }

  function TypeOf(de: seq<byte>): byte
    requires |de| > 0
  {
    var typeId := de[0] / 8 * 8;
    if typeId >= STRING then typeId else de[0]
  }

  // ----- encoding -----

  function Encode(e: Element): (s: seq<byte>)
    ensures |s| >= 1
    decreases e
  {
    match e
    case Nil => [NIL]
    case Scalar(tag, payload) => [tag] + payload
    case Text(tag, form, chars) => Header(tag, form, |chars|) + chars
    case Group(tag, form, items) => var body := EncodeAll(items); Header(tag, form, |body|) + body
  }

  function EncodeAll(items: seq<Element>): (s: seq<byte>)
    ensures |s| >= |items|
    decreases items
  {
    if items == [] then [] else Encode(items[0]) + EncodeAll(items[1..])
  }

  function Header(tag: byte, form: byte, len: nat): (s: seq<byte>)
    ensures |s| == 1 + LengthBytes(form)
  {
    [if tag + form < 256 then tag + form else 0] + BigEndian(len, LengthBytes(form))
  }

  /** The bytes of a header for each form of its length. */
  lemma HeaderBytes(tag: byte, len: nat)
    requires (IsTextTag(tag) || IsGroupTag(tag)) && len < 0x1_0000_0000
    ensures len < 0x100 ==> Header(tag, 5, len) == [tag + 5, len]
    ensures len < 0x1_0000 ==> Header(tag, 6, len) == [tag + 6, len / 0x100, len % 0x100]
    ensures Header(tag, 7, len) ==
      [tag + 7, len / 0x100_0000, len / 0x1_0000 % 0x100, len / 0x100 % 0x100, len % 0x100]
  {
    hide BigEndian;
    if len < 0x100 {
      BigEndianByte(len);
    }
    if len < 0x1_0000 {
      BigEndianWord(len);
    }
    BigEndianLong(len);
  }

  /** Each size index means twice the bytes of the one before. */
  lemma SizesDouble(sizeId: byte)
    ensures FixedSize(0) == 1
    ensures sizeId < 4 ==> FixedSize(sizeId + 1) == 2 * FixedSize(sizeId)
  {
  }

  predicate WellFormed(e: Element)
    decreases e
  {
    match e
    case Nil => true
    case Scalar(tag, payload) => IsScalarTag(tag) && |payload| == FixedSize(tag % 8)
    case Text(tag, form, chars) =>
      IsTextTag(tag) && 5 <= form <= 7 && |chars| < Range(LengthBytes(form))
    case Group(tag, form, items) =>
      && IsGroupTag(tag) && 5 <= form <= 7
      && |EncodeAll(items)| < Range(LengthBytes(form))
      && AllWellFormed(items)
  }

  predicate AllWellFormed(items: seq<Element>)
    decreases items
  {
    items == [] || (WellFormed(items[0]) && AllWellFormed(items[1..]))
  }

  /** A variable-length tag byte splits back into its type and its size index. */
  lemma {:induction false} TagByte(tag: byte, form: byte)
    requires (IsTextTag(tag) || IsGroupTag(tag)) && 5 <= form <= 7
    ensures tag + form < 256 && (tag + form) % 8 == form && (tag + form) / 8 * 8 == tag
  {
  }

  lemma {:induction false} ScalarAccessors(tag: byte, rest: seq<byte>)
    requires IsScalarTag(tag)
    ensures var de := [tag] + rest;
      HeaderFits(de) && HeaderSize(de) == 1 && DataSize(de) == FixedSize(tag % 8) && !IsGroupTag(TypeOf(de))
  {
  }

  lemma {:induction false} HeaderAccessors(tag: byte, form: byte, len: nat, rest: seq<byte>)
    requires (IsTextTag(tag) || IsGroupTag(tag)) && 5 <= form <= 7 && len < Range(LengthBytes(form))
    ensures var de := Header(tag, form, len) + rest;
      HeaderFits(de) && de[0] == tag + form && TypeOf(de) == tag &&
      HeaderSize(de) == 1 + LengthBytes(form) && DataSize(de) == len
  {
    TagByte(tag, form);
    var de := Header(tag, form, len) + rest;
    assert de[1..HeaderSize(de)] == BigEndian(len, LengthBytes(form));
    BigEndianRoundTrip(len, LengthBytes(form));
  }

  function HeaderOf(e: Element): seq<byte> {
    match e
    case Nil => [NIL]
    case Scalar(tag, _) => [tag]
    case Text(tag, form, chars) => Header(tag, form, |chars|)
    case Group(tag, form, items) => Header(tag, form, |EncodeAll(items)|)
  }

  /** The bytes after the header: the payload, the characters or the encoded items. */
  function Body(e: Element): seq<byte> {
    match e
    case Nil => []
    case Scalar(_, payload) => payload
    case Text(_, _, chars) => chars
    case Group(_, _, items) => EncodeAll(items)
  }

  lemma {:induction false} EncodeSplits(e: Element, rest: seq<byte>)
    ensures Encode(e) == HeaderOf(e) + Body(e)
    ensures Encode(e) + rest == HeaderOf(e) + (Body(e) + rest)
  {
    hide Header, EncodeAll;
    Associative(HeaderOf(e), Body(e), rest);
  }

  lemma Associative(a: seq<byte>, b: seq<byte>, c: seq<byte>)
    ensures (a + b) + c == a + (b + c)
  {
  }

  /** What the accessors report of a well-formed element, whatever follows it. */
  lemma {:induction false} Accessors(e: Element, rest: seq<byte>)
    requires WellFormed(e)
    ensures var de := Encode(e) + rest;
      HeaderFits(de) && HeaderSize(de) == |HeaderOf(e)| && TotalSize(de) == |Encode(e)| &&
      (e.Group? <==> IsGroupTag(TypeOf(de))) &&
      (e.Text? || e.Group? ==> TypeOf(de) == e.tag && de[0] == e.tag + e.form)
  {
    EncodeSplits(e, rest);
    var after := Body(e) + rest;
    hide EncodeAll;
    match e
    case Nil => assert (Encode(e) + rest)[0] == NIL;
    case Scalar(tag, payload) => ScalarAccessors(tag, after);
    case Text(tag, form, chars) => HeaderAccessors(tag, form, |chars|, after);
    case Group(tag, form, items) => HeaderAccessors(tag, form, |EncodeAll(items)|, after);
  }

  lemma {:induction false} Cons(e: Element, items: seq<Element>)
    ensures EncodeAll([e] + items) == Encode(e) + EncodeAll(items)
    ensures AllWellFormed([e] + items) <==> WellFormed(e) && AllWellFormed(items)
  {
    assert ([e] + items)[1..] == items;
  }

  // ----- decoding with the accessors -----

  /** The element at the front of `de`. */
  function Decode(de: seq<byte>): Option<Element>
    decreases |de|, 0
  {
    if !HeaderFits(de) || TotalSize(de) > |de| then None
    else DecodeBody(de[0], TypeOf(de), de[HeaderSize(de)..TotalSize(de)])
  }

  function DecodeBody(first: byte, typ: byte, body: seq<byte>): Option<Element>
    decreases |body|, 2
  {
    if first == NIL then Some(Nil)
    else if IsScalarTag(first) then Some(Scalar(first, body))
    else if first % 8 < 5 then None
    else if IsTextTag(typ) then Some(Text(typ, first % 8, body))
    else if IsGroupTag(typ) then
      var items := DecodeAll(body);
      if items.None? then None else Some(Group(typ, first % 8, items.value))
    else None
  }

  /** The elements that fill `de` exactly. */
  function DecodeAll(de: seq<byte>): Option<seq<Element>>
    decreases |de|, 1
  {
    if de == [] then Some([])
    else
      var head := Decode(de);
      if head.None? then None
      else
        var tail := DecodeAll(de[TotalSize(de)..]);
        if tail.None? then None else Some([head.value] + tail.value)
  }

  /** Every well-formed tree comes back from its bytes, whatever follows them, in all
      three header forms. */
  lemma {:induction false} DecodeEncode(e: Element, rest: seq<byte>)
    requires WellFormed(e)
    ensures Decode(Encode(e) + rest) == Some(e)
    decreases e
  {
    Accessors(e, rest);
    EncodeSplits(e, rest);
    var de := Encode(e) + rest;
    if e.Group? {
      DecodeAllEncode(e.items);
    }
    DecodeOfBody(e, rest);
    assert de[|HeaderOf(e)|..|Encode(e)|] == Body(e);
    hide Encode, EncodeAll, HeaderOf, Body, HeaderFits, HeaderSize, TotalSize, TypeOf, WellFormed, DecodeBody;
  }

  /** Its tag and its body make up the element again, if the children of a sequence come back. */
  lemma DecodeOfBody(e: Element, rest: seq<byte>)
    requires WellFormed(e) && (e.Group? ==> DecodeAll(EncodeAll(e.items)) == Some(e.items))
    ensures var de := Encode(e) + rest;
      DecodeBody(de[0], TypeOf(de), Body(e)) == Some(e)
  {
    Accessors(e, rest);
    hide Header, EncodeAll, DecodeAll, HeaderFits, HeaderSize, TotalSize;
    if e.Text? || e.Group? {
      hide Encode;
      TagByte(e.tag, e.form);
    }
  }

  lemma {:induction false} DecodeAllEncode(items: seq<Element>)
    requires AllWellFormed(items)
    ensures DecodeAll(EncodeAll(items)) == Some(items)
    decreases items
  {
    if items == [] {
    } else {
      var rest := EncodeAll(items[1..]);
      DecodeEncode(items[0], rest);
      Accessors(items[0], rest);
      DecodeAllEncode(items[1..]);
      assert (Encode(items[0]) + rest)[|Encode(items[0])|..] == rest;
      assert items == [items[0]] + items[1..];
    }
  }

  /** The decoder accepts nothing else: what it returns is well formed and encodes to the
      very bytes it was read from. */
  lemma {:induction false} EncodeDecode(de: seq<byte>)
    requires Decode(de).Some?
    ensures WellFormed(Decode(de).value) && Encode(Decode(de).value) == de[..TotalSize(de)]
    decreases |de|, 0
  {
    var h, body := de[..HeaderSize(de)], de[HeaderSize(de)..TotalSize(de)];
    assert de[..TotalSize(de)] == h + body;
    assert h == [de[0]] + de[1..HeaderSize(de)];
    EncodeDecodeBody(de[0], TypeOf(de), body, h);
  }

  /** A variable-length header is determined by its first byte and the length it declares. */
  lemma {:induction false} HeaderRebuilt(h: seq<byte>)
    requires |h| > 0 && h[0] % 8 >= 5 && |h| == 1 + LengthBytes(h[0] % 8)
    ensures FromBigEndian(h[1..]) < Range(LengthBytes(h[0] % 8))
    ensures Header(h[0] / 8 * 8, h[0] % 8, FromBigEndian(h[1..])) == h
  {
    FromBigEndianRoundTrip(h[1..]);
    assert h == [h[0]] + h[1..];
  }

  lemma {:induction false} EncodeDecodeBody(first: byte, typ: byte, body: seq<byte>, h: seq<byte>)
    requires typ == (if first / 8 * 8 >= STRING then first / 8 * 8 else first)
    requires |h| == 1 + LengthBytes(first % 8) && h[0] == first
    requires first % 8 >= 5 ==> FromBigEndian(h[1..]) == |body|
    requires first % 8 < 5 ==> |body| == if first == NIL then 0 else FixedSize(first % 8)
    requires DecodeBody(first, typ, body).Some?
    ensures WellFormed(DecodeBody(first, typ, body).value)
    ensures Encode(DecodeBody(first, typ, body).value) == h + body
    decreases |body|, 2
  {
    if first % 8 < 5 {
      assert h == [first];
    } else {
      HeaderRebuilt(h);
      hide FromBigEndian, LengthBytes, Header;
      var e := DecodeBody(first, typ, body).value;
      if e.Group? {
        EncodeDecodeAll(body);
      }
    }
  }

  lemma {:induction false} EncodeDecodeAll(de: seq<byte>)
    requires DecodeAll(de).Some?
    ensures AllWellFormed(DecodeAll(de).value) && EncodeAll(DecodeAll(de).value) == de
    decreases |de|, 1
  {
    if de == [] {
    } else {
      EncodeDecode(de);
      var n, head := TotalSize(de), Decode(de).value;
      hide Decode, TotalSize, HeaderFits, Encode, WellFormed;
      assert de == de[..n] + de[n..];
      EncodeDecodeAll(de[n..]);
      Cons(head, DecodeAll(de[n..]).value);
    }
  }
}
