/** A search for services by their 16-bit UUIDs (services/sdp.c:1000-1011): the pattern is built in a buffer of
    32 bytes on the stack. */
module SdpSearch {
  import opened Prelude
  import opened Bytes
  import opened SdpElement
  import opened SdpArgs
  import opened SdpWriter
  import SdpClient

  const BUFFER_SIZE: nat := 32
  const MAX_UUIDS: nat := 12

  /** The pattern that the caller asks for: a sequence of its UUIDs. */
  function PatternOf(uuids: seq<u16>): Element {
    Group(SEQUENCE, 5, UuidElements(uuids))
  }

  function UuidElements(uuids: seq<u16>): seq<Element> {
    if uuids == [] then [] else [Scalar(UUID16, BigEndian(uuids[0], 2))] + UuidElements(uuids[1..])
  }

  /** The UUIDs as they lie in memory, in host byte order. */
  function Chunks(uuids: seq<u16>): (chunks: seq<seq<byte>>)
    ensures |chunks| == |uuids|
    ensures forall i :: 0 <= i < |chunks| ==> |chunks[i]| == 2
  {
    if uuids == [] then [] else [LittleEndian(uuids[0], 2)] + Chunks(uuids[1..])
  }

  function Arguments(uuids: seq<u16>): seq<Arg> {
    [ArgOpen(SEQUENCE), ArgArray(UUID16, Chunks(uuids)), End, End]
  }

  function Items(uuids: seq<u16>): seq<Item> {
    [Nested(SEQUENCE, [Single(ArgArray(UUID16, Chunks(uuids)))])]
  }

  lemma {:induction false} UuidChunks(uuids: seq<u16>)
    ensures ChunkElements(UUID16, Chunks(uuids)) == UuidElements(uuids)
    ensures |ArrayBytes(UUID16, Chunks(uuids))| == 3 * |uuids|
  {
    if uuids == [] {
    } else {
      UuidChunks(uuids[1..]);
      assert FixedSize(UUID16 % 8) == 2;
      Ranges();
      LittleEndianRoundTrip(uuids[0], 2);
    }
  }

  /** What the arguments stand for, and how long it is. */
  lemma UuidPattern(uuids: seq<u16>)
    requires |uuids| <= MAX_UUIDS
    ensures
      var items := Items(uuids);
      && AllOk(items) && AllAgree(items) && Pending(Arguments(uuids), 0, items)
      && AllElements(items) == [PatternOf(uuids)] && !AllEndInText(items)
      && |AllBytes(items)| == |EncodeAll(AllElements(items))| == 2 + 3 * |uuids|
      && EncodeAll(AllElements(items)) == Encode(PatternOf(uuids)) && WellFormed(PatternOf(uuids))
  {
    var items, inner := Items(uuids), [Single(ArgArray(UUID16, Chunks(uuids)))];
    UuidChunks(uuids);
    InnerIs(uuids, inner);
    ArrayWrittenAsElements(UUID16, Chunks(uuids));
    NestedIs(uuids, inner, items);
    BytesAreEncoding(items);
    OneElement(PatternOf(uuids));
    hide AllOk, AllAgree, AllBytes, AllElements, Encode, EncodeAll, WellFormed, AllWellFormed;
  }

  lemma InnerIs(uuids: seq<u16>, inner: seq<Item>)
    requires inner == [Single(ArgArray(UUID16, Chunks(uuids)))]
    ensures AllOk(inner) && AllAgree(inner) && AllFlat(inner) == [ArgArray(UUID16, Chunks(uuids))]
    ensures AllElements(inner) == ChunkElements(UUID16, Chunks(uuids)) && !AllEndInText(inner)
    ensures AllBytes(inner) == ArrayBytes(UUID16, Chunks(uuids))
  {
    hide ChunkElements, ArrayBytes;
    assert inner[1..] == [];
    assert ArrayBytes(UUID16, Chunks(uuids)) + [] == ArrayBytes(UUID16, Chunks(uuids));
    assert ChunkElements(UUID16, Chunks(uuids)) + [] == ChunkElements(UUID16, Chunks(uuids));
  }

  lemma NestedIs(uuids: seq<u16>, inner: seq<Item>, items: seq<Item>)
    requires items == [Nested(SEQUENCE, inner)] && |uuids| <= MAX_UUIDS
    requires AllOk(inner) && AllAgree(inner) && AllFlat(inner) == [ArgArray(UUID16, Chunks(uuids))]
    requires AllElements(inner) == UuidElements(uuids) && !AllEndInText(inner)
    requires AllBytes(inner) == EncodeAll(UuidElements(uuids)) && |AllBytes(inner)| == 3 * |uuids|
    ensures AllOk(items) && AllAgree(items) && Pending(Arguments(uuids), 0, items)
    ensures AllElements(items) == [PatternOf(uuids)] && !AllEndInText(items)
    ensures |AllBytes(items)| == 2 + 3 * |uuids|
  {
    hide EncodeAll, UuidElements, Chunks, AllFlat, Pending, AllBytes, AllElements, AllOk, AllAgree, AllEndInText;
    NestedFlags(inner, items);
    NestedArguments(uuids, inner, items);
    NestedBytes(inner, items);
  }

  lemma NestedFlags(inner: seq<Item>, items: seq<Item>)
    requires items == [Nested(SEQUENCE, inner)] && AllOk(inner) && AllAgree(inner) && !AllEndInText(inner)
    ensures AllOk(items) && AllAgree(items) && !AllEndInText(items)
  {
    assert items[1..] == [];
    assert Ok(items[0]) && Agrees(items[0]);
    assert AllOk(items);
    assert !EndsInText(items[0]);
  }

  lemma NestedBytes(inner: seq<Item>, items: seq<Item>)
    requires items == [Nested(SEQUENCE, inner)] && AllOk(inner) && AllOk(items)
    ensures AllBytes(items) == VarHeader(SEQUENCE, |AllBytes(inner)|) + AllBytes(inner)
    ensures
      var elements := AllElements(inner);
      AllElements(items) == [Group(SEQUENCE, VarForm(|EncodeAll(elements)|), elements)]
  {
    hide EncodeAll, VarHeader, VarForm;
    assert items[1..] == [];
    assert ItemBytes(items[0]) + [] == ItemBytes(items[0]);
    assert Elements(items[0]) + [] == Elements(items[0]);
  }

  lemma NestedArguments(uuids: seq<u16>, inner: seq<Item>, items: seq<Item>)
    requires items == [Nested(SEQUENCE, inner)] && AllFlat(inner) == [ArgArray(UUID16, Chunks(uuids))]
    ensures Pending(Arguments(uuids), 0, items)
  {
    hide Chunks;
    assert items[1..] == [];
    assert Flat(items[0]) == [ArgOpen(SEQUENCE)] + ([ArgArray(UUID16, Chunks(uuids))] + [End]);
    assert Flat(items[0]) + [] == Flat(items[0]);
    assert AllFlat(items) + [End] == Arguments(uuids);
  }

  /** The buffer is larger than the element exactly for nine UUIDs and less. */
  lemma NineFit(uuids: seq<u16>)
    requires |uuids| <= MAX_UUIDS
    ensures |Encode(PatternOf(uuids))| < BUFFER_SIZE <==> |uuids| <= 9
  {
    UuidPattern(uuids);
    hide Encode, PatternOf;
  }

  /** The pattern in the buffer. More than 12 UUIDs are refused. Up to nine the element is there, with what was on the
      stack behind it; from ten on the buffer is as it was found, and what was on the stack is taken for the pattern. */
  method SearchPattern(uuids: seq<u16>, stack: seq<byte>) returns (pattern: Option<seq<byte>>)
    requires |stack| == BUFFER_SIZE
    ensures pattern == None <==> |uuids| > MAX_UUIDS
    ensures
      |uuids| <= 9 ==>
        var element := Encode(PatternOf(uuids));
        |element| < BUFFER_SIZE && pattern == Some(element + stack[|element|..])
    ensures 9 < |uuids| <= MAX_UUIDS ==> pattern == Some(stack)
  {
    if |uuids| > MAX_UUIDS {
      return None;
    }
    var buffer := new byte[BUFFER_SIZE](i requires 0 <= i < BUFFER_SIZE => stack[i]);
    assert buffer[..] == stack;
    UuidPattern(uuids);
    NineFit(uuids);
    hide AllOk, AllAgree, AllBytes, AllElements, Encode, EncodeAll, WellFormed, AllWellFormed, Pending, PatternOf,
      AllEndInText, Chunks, Items;
    var size := Write(buffer, BUFFER_SIZE, Arguments(uuids), Items(uuids));
    pattern := Some(buffer[..]);
    if |uuids| <= 9 {
      InFront(buffer[..], stack, Encode(PatternOf(uuids)));
    }
  }

  lemma InFront(now: seq<byte>, stack: seq<byte>, element: seq<byte>)
    requires |now| == |stack| > |element| && now[..|element|] == element && now[|element|] == stack[|element|]
    requires now[|element| + 1..] == stack[|element| + 1..]
    ensures now == element + stack[|element|..]
  {
    var n := |element|;
    forall i | 0 <= i < |now|
      ensures now[i] == (element + stack[n..])[i]
    {
      if i < n {
        assert now[..n][i] == now[i];
      } else if i > n {
        assert now[n + 1..][i - n - 1] == now[i] && stack[n + 1..][i - n - 1] == stack[i];
      }
    }
  }

  /** What the server is asked for. */
  function Asked(uuids: seq<u16>, stack: seq<byte>): seq<byte>
    requires |uuids| > 9 ==> HeaderFits(stack) && TotalSize(stack) <= |stack|
  {
    if |uuids| <= 9 then Encode(PatternOf(uuids)) else SdpClient.Pointed(stack)
  }

  /** bte_sdp_service_search_req_uuid16. From ten UUIDs on this looks at bytes that nobody has written; if they
      declare more than the buffer holds, it reads on behind the buffer, which is not part of this model. */
  method ServiceSearchUuid16(c: SdpClient.Client, uuids: seq<u16>, stack: seq<byte>, maxCount: u16, created: bool,
                             sent: bool)
    returns (ok: bool)
    requires c.Valid() && |stack| == BUFFER_SIZE
    requires 9 < |uuids| <= MAX_UUIDS ==> HeaderFits(stack) && TotalSize(stack) <= |stack|
    modifies c
    ensures c.Valid() && c.calls == old(c.calls)
    ensures ok <==> |uuids| <= MAX_UUIDS && old(c.last) == None && created && sent
    ensures
      ok ==>
        var params := SdpClient.SearchParams(Asked(uuids, stack), maxCount);
        c.Abstract() == SdpClient.State(Some(SdpClient.Pdu(SdpClient.SERVICE_SEARCH, old(c.nextId) % 0x1_0000,
                                                           params + [0])), |params|, None, old(c.nextId) + 1)
    ensures !ok ==> c.last == old(c.last)
  {
    var pattern := SearchPattern(uuids, stack);
    if pattern == None {
      return false;
    }
    if |uuids| <= 9 {
      PatternIsPointed(uuids, stack[|Encode(PatternOf(uuids))|..]);
    }
    hide Encode, PatternOf, TotalSize, HeaderFits, SdpClient.Pointed;
    ok := c.ServiceSearch(pattern.value, maxCount, created, sent);
  }

  /** The pattern says itself where it ends. */
  lemma PatternIsPointed(uuids: seq<u16>, rest: seq<byte>)
    requires |uuids| <= MAX_UUIDS
    ensures
      var de := Encode(PatternOf(uuids)) + rest;
      && HeaderFits(de) && TotalSize(de) == |Encode(PatternOf(uuids))| <= |de| && TotalSize(de) < 0x1_0000
      && SdpClient.Pointed(de) == Encode(PatternOf(uuids))
  {
    UuidPattern(uuids);
    Accessors(PatternOf(uuids), rest);
    hide Encode, PatternOf;
  }

  /** So the UUIDs are asked for, whatever was on the stack, exactly if there are nine at most. */
  lemma AskedIffNine(uuids: seq<u16>)
    requires |uuids| <= MAX_UUIDS
    ensures
      (forall stack: seq<byte> :: |stack| == BUFFER_SIZE && HeaderFits(stack) && TotalSize(stack) <= |stack| ==>
        Asked(uuids, stack) == Encode(PatternOf(uuids))) <==> |uuids| <= 9
  {
    if |uuids| > 9 {
      var zeros: seq<byte> := seq(BUFFER_SIZE, i => 0);
      UuidPattern(uuids);
      assert HeaderFits(zeros) && TotalSize(zeros) == 1;
      assert |Asked(uuids, zeros)| == 1;
    }
  }
}
