/** Cutting messages into packet chains, on the chains themselves (acl.c:329-358; utils.h:74-81). */
module Acl {
  import opened Bytes
  import opened ByteArrays
  import opened Buffer
  import opened AclFrames

  // ----- the space a message takes -----

  function FragmentedSize(dataSize: u16, packetSize: u16): u16
    requires packetSize > ACL_HEADER
  {
    var packetData := packetSize - ACL_HEADER;
    (dataSize + packetData - 1) / packetData * packetSize % 0x1_0000
  }

  /** How many packets a message takes. */
  function Count(size: nat, cap: nat): nat
    requires cap > 0
  {
    if size == 0 then 0 else if size <= cap then 1 else 1 + Count(size - cap, cap)
  }

  lemma {:induction false} CountIsRoundedUp(size: nat, cap: nat)
    requires cap > 0
    ensures Count(size, cap) == (size + cap - 1) / cap
    decreases size
  {
    if size == 0 {
      SmallQuotient(cap - 1, cap);
    } else if size <= cap {
      QuotientStep(size - 1, cap);
      SmallQuotient(size - 1, cap);
    } else {
      CountIsRoundedUp(size - cap, cap);
      QuotientStep(size - 1, cap);
    }
  }

  lemma SmallQuotient(a: nat, b: nat)
    requires a < b
    ensures a / b == 0
  {
  }

  lemma QuotientStep(a: nat, b: nat)
    requires b > 0
    ensures (a + b) / b == a / b + 1
  {
    assert a == b * (a / b) + a % b;
    assert b * (a / b + 1) == b * (a / b) + b;
    QuotientIs(a + b, b, a / b + 1, a % b);
  }

  lemma QuotientIs(x: nat, b: nat, q: nat, r: nat)
    requires r < b && x == b * q + r
    ensures x / b == q
  {
    var p := x / b;
    assert x == b * p + x % b;
    if p < q {
      MulMono(b, p + 1, q);
    } else if q < p {
      MulMono(b, q + 1, p);
    }
  }

  lemma MulMono(b: nat, x: nat, y: nat)
    requires x <= y
    ensures b * x <= b * y
  {
  }

  lemma {:induction false} SplitEvenly(n: nat, block: nat)
    requires block > 0
    ensures |Split(n * block, block)| == n
    ensures forall i :: 0 <= i < n ==> Split(n * block, block)[i] == block
  {
    if n == 0 {
    } else if n == 1 {
      assert n * block == block;
    } else {
      assert n * block == (n - 1) * block + block;
      assert (n - 1) * block >= block;
      SplitEvenly(n - 1, block);
    }
  }

  // ----- headers -----

  /** The headers of the packets of a message of `size` bytes. */
  function Headers(h: handle, boundary: nat, broadcast: nat, size: u16, cap: u16): (s: seq<seq<byte>>)
    requires boundary < 4 && broadcast < 4 && cap > 0
    ensures |s| == Count(size, cap)
    ensures forall i :: 0 <= i < |s| ==> |s[i]| == ACL_HEADER
    decreases size
  {
    if size == 0 then []
    else if size <= cap then [Header(h, boundary, broadcast, size)]
    else [Header(h, boundary, broadcast, cap)] + Headers(h, CONTINUATION, broadcast, size - cap, cap)
  }

  lemma HeadersStep(h: handle, boundary: nat, broadcast: nat, size: u16, cap: u16)
    requires boundary < 4 && broadcast < 4 && cap > 0
    ensures
      var s, n: u16 := Headers(h, boundary, broadcast, size, cap), if size <= cap then size else cap;
      s != [] ==>
        s[0] == Header(h, boundary, broadcast, n) && s[1..] == Headers(h, CONTINUATION, broadcast, size - n, cap)
  {
  }

  /** Whole packets that carry these headers. */
  predicate Carry(segs: seq<seq<byte>>, headers: seq<seq<byte>>, cap: u16) {
    && |segs| == |headers|
    && forall i :: 0 <= i < |segs| ==> |segs[i]| == ACL_HEADER + cap && segs[i][..ACL_HEADER] == headers[i]
  }

  /** The packets of a message, taken together, have a 16-bit size. */
  predicate SizeFits(size: u16, mtu: u16)
    requires mtu > ACL_HEADER
  {
    Count(size, mtu - ACL_HEADER) * mtu < 0x1_0000
  }

  method CreateMessage(h: handle, size: u16, mtu: u16, broadcast: nat)
    returns (head: Packet?, ghost chain: seq<Packet>)
    requires mtu > ACL_HEADER && broadcast < 4
    requires SizeFits(size, mtu)
    ensures forall p :: p in chain ==> fresh(p) && fresh(p.data)
    ensures head == null <==> size == 0
    ensures head != null ==> IsChain(chain) && IsFirst(chain, head)
    ensures head != null ==> Carry(Segments(chain), Headers(h, FIRST_FLUSH, broadcast, size, mtu - ACL_HEADER),
        mtu - ACL_HEADER)
  {
    var cap := mtu - ACL_HEADER;
    var reqSize := FragmentedSize(size, mtu);
    CountIsRoundedUp(size, cap);
    SplitEvenly(Count(size, cap), mtu);
    head, chain := Alloc(reqSize, mtu);
    if head != null {
      WriteHeaders(head, h, size, mtu, broadcast, chain);
    }
  }

  method WriteHeaders(head: Packet, h: handle, size: u16, mtu: u16, broadcast: nat, ghost chain: seq<Packet>)
    requires mtu > ACL_HEADER && broadcast < 4 && size > 0
    requires IsChain(chain) && IsFirst(chain, head) && |chain| == Count(size, mtu - ACL_HEADER)
    requires forall i :: 0 <= i < |chain| ==> chain[i].size == mtu
    modifies Memory(chain)
    ensures IsChain(chain) && Carry(Segments(chain), Headers(h, FIRST_FLUSH, broadcast, size, mtu - ACL_HEADER),
        mtu - ACL_HEADER)
  {
    var cap := mtu - ACL_HEADER;
    ghost var all := Headers(h, FIRST_FLUSH, broadcast, size, cap);
    hide *;
    var boundary, left: u16 := FIRST_FLUSH, size;
    var at: Packet? := head;
    ghost var i := 0;
    Starts(chain, head, mtu, all, h, boundary, broadcast, left, cap);
    while at != null
      invariant InPlace(chain, mtu, all, i) && Behind(chain, at, i) && ToCome(all, i, h, boundary, broadcast, left, cap)
      decreases |chain| - i
    {
      Here(chain, at, i, mtu, all);
      HeaderHere(all, i, h, boundary, broadcast, left, cap);
      var dataSize: u16 := left;
      if dataSize > cap {
        dataSize := cap;
      }
      PutHeader(chain, mtu, all, i, at, h, boundary, broadcast, dataSize);
      boundary := CONTINUATION;
      left := left - dataSize;
      at := at.next;
      i := i + 1;
    }
    AllInPlace(chain, mtu, all, i);
    Carried(chain, mtu, all, cap);
  }

  /** The first n packets carry their headers. */
  ghost predicate InPlace(chain: seq<Packet>, mtu: u16, all: seq<seq<byte>>, n: nat)
    reads chain, Memory(chain)
  {
    && mtu > ACL_HEADER && IsChain(chain) && |chain| == |all| && n <= |all|
    && (forall j :: 0 <= j < |chain| ==> chain[j].size == mtu)
    && (forall j :: 0 <= j < n ==> chain[j].data[..ACL_HEADER] == all[j])
  }

  ghost predicate Behind(chain: seq<Packet>, at: Packet?, i: nat) {
    i <= |chain| && at == if i < |chain| then chain[i] else null
  }

  /** The headers from number i on are those of what is left of the message. */
  ghost predicate ToCome(all: seq<seq<byte>>, i: nat, h: handle, boundary: nat, broadcast: nat, left: u16, cap: u16) {
    boundary < 4 && broadcast < 4 && cap > 0 && i <= |all| && Headers(h, boundary, broadcast, left, cap) == all[i..]
  }

  lemma Starts(chain: seq<Packet>, head: Packet, mtu: u16, all: seq<seq<byte>>, h: handle, boundary: nat,
               broadcast: nat, left: u16,
               cap: u16)
    requires mtu > ACL_HEADER && boundary == FIRST_FLUSH && broadcast < 4 && cap == mtu - ACL_HEADER
    requires IsChain(chain) && IsFirst(chain, head) && |chain| == Count(left, cap)
    requires forall i :: 0 <= i < |chain| ==> chain[i].size == mtu
    requires boundary < 4 && all == Headers(h, boundary, broadcast, left, cap)
    ensures InPlace(chain, mtu, all, 0) && Behind(chain, head, 0) && ToCome(all, 0, h, boundary, broadcast, left, cap)
  {
    hide Headers, Count;
  }

  lemma Here(chain: seq<Packet>, at: Packet, i: nat, mtu: u16, all: seq<seq<byte>>)
    requires InPlace(chain, mtu, all, i) && Behind(chain, at, i)
    ensures i < |chain| && at == chain[i] && at.data in Memory(chain) && Behind(chain, at.next, i + 1) && i < |all|
  {
    assert i + 1 < |chain| ==> chain[i].next == chain[i + 1];
  }

  lemma HeaderHere(all: seq<seq<byte>>, i: nat, h: handle, boundary: nat, broadcast: nat, left: u16, cap: u16)
    requires ToCome(all, i, h, boundary, broadcast, left, cap) && i < |all|
    ensures
      var n: u16 := if left <= cap then left else cap;
      && boundary < 4 && broadcast < 4 && all[i] == Header(h, boundary, broadcast, n)
      && ToCome(all, i + 1, h, CONTINUATION, broadcast, left - n, cap)
  {
    hide Headers, Header;
    HeadersStep(h, boundary, broadcast, left, cap);
    assert all[i..][0] == all[i] && all[i..][1..] == all[i + 1..];
  }

  lemma AllInPlace(chain: seq<Packet>, mtu: u16, all: seq<seq<byte>>, i: nat)
    requires InPlace(chain, mtu, all, i) && Behind(chain, null, i)
    ensures InPlace(chain, mtu, all, |all|) && mtu > ACL_HEADER && IsChain(chain)
  {
  }

  lemma Carried(chain: seq<Packet>, mtu: u16, all: seq<seq<byte>>, cap: u16)
    requires InPlace(chain, mtu, all, |all|) && IsChain(chain) && mtu > ACL_HEADER && cap == mtu - ACL_HEADER
    ensures Carry(Segments(chain), all, cap)
  {
    var segs := Segments(chain);
    forall j | 0 <= j < |chain|
      ensures |segs[j]| == mtu && segs[j][..ACL_HEADER] == all[j]
    {
      assert segs[j][..ACL_HEADER] == chain[j].data[..ACL_HEADER];
    }
  }

  method PutHeader(ghost chain: seq<Packet>, ghost mtu: u16, ghost all: seq<seq<byte>>, ghost i: nat, p: Packet,
                   h: handle, boundary: nat, broadcast: nat, size: u16)
    requires InPlace(chain, mtu, all, i) && i < |chain| && i < |all| && p == chain[i]
    requires boundary < 4 && broadcast < 4 && all[i] == Header(h, boundary, broadcast, size)
    modifies p.data
    ensures InPlace(chain, mtu, all, i + 1)
  {
    hide Header;
    var header := Header(h, boundary, broadcast, size);
    PutBytes(p.data, 0, header);
    assert p.data[..ACL_HEADER] == header;
  }

  // ----- a whole message -----

  /** Headers in place, the payload written behind them and the last packet cut: these are the frames. */
  lemma {:induction false} CutToFrames(segs: seq<seq<byte>>, h: handle, boundary: nat, broadcast: nat,
                                       payload: seq<byte>,
                                       cap: u16, k: nat, pos: nat)
    requires boundary < 4 && broadcast < 4 && cap > 0 && 0 < |payload| < 0x1_0000
    requires Carry(segs, Headers(h, boundary, broadcast, |payload|, cap), cap) && HaveHeaders(segs, ACL_HEADER)
    requires payload <= Flat(segs, ACL_HEADER)
    requires k < |segs| && ACL_HEADER <= pos <= |segs[k]| && FlatPos(segs, k, pos, ACL_HEADER) == |payload|
    ensures k == |segs| - 1
    ensures segs[k := segs[k][..pos]] == Frames(h, boundary, broadcast, payload, cap)
    decreases |payload|
  {
    hide Header, Frames, Frame;
    if |payload| <= cap {
      FlatOfOne(segs[0]);
      assert segs == [segs[0]];
      CutOne(segs[0], h, boundary, broadcast, payload, pos);
      FramesOfShort(h, boundary, broadcast, payload, cap);
    } else {
      var rest, later := payload[cap..], Flat(segs[1..], ACL_HEADER);
      CarryRest(segs, h, boundary, broadcast, |payload|, cap);
      assert Flat(segs, ACL_HEADER) == segs[0][ACL_HEADER..] + later;
      PayloadSplit(segs[0][ACL_HEADER..], later, payload);
      CutToFrames(segs[1..], h, CONTINUATION, broadcast, rest, cap, k - 1, pos);
      CutOne(segs[0], h, boundary, broadcast, payload[..cap], ACL_HEADER + cap);
      FramesOfLong(h, boundary, broadcast, payload, cap);
      assert segs[0][..ACL_HEADER + cap] == segs[0];
      assert segs[k := segs[k][..pos]] == [segs[0]] + segs[1..][k - 1 := segs[k][..pos]];
    }
  }

  lemma CutOne(seg: seq<byte>, h: handle, boundary: nat, broadcast: nat, chunk: seq<byte>, pos: nat)
    requires boundary < 4 && broadcast < 4 && |chunk| < 0x1_0000
    requires pos == ACL_HEADER + |chunk| <= |seg|
    requires seg[..ACL_HEADER] == Header(h, boundary, broadcast, |chunk|) && chunk <= seg[ACL_HEADER..]
    ensures seg[..pos] == Frame(h, boundary, broadcast, chunk)
  {
    hide Header;
    assert seg[..pos] == seg[..ACL_HEADER] + seg[ACL_HEADER..][..|chunk|];
  }

  lemma CarryRest(segs: seq<seq<byte>>, h: handle, boundary: nat, broadcast: nat, size: u16, cap: u16)
    requires boundary < 4 && broadcast < 4 && 0 < cap < size
    requires Carry(segs, Headers(h, boundary, broadcast, size, cap), cap)
    ensures Carry(segs[1..], Headers(h, CONTINUATION, broadcast, size - cap, cap), cap)
    ensures segs[0][..ACL_HEADER] == Header(h, boundary, broadcast, cap) && |segs[0]| == ACL_HEADER + cap
  {
    var headers := Headers(h, boundary, broadcast, size, cap);
    assert headers[1..] == Headers(h, CONTINUATION, broadcast, size - cap, cap);
  }

  lemma PayloadSplit(a: seq<byte>, b: seq<byte>, s: seq<byte>)
    requires s <= a + b && |a| <= |s|
    ensures s[..|a|] == a && s[|a|..] <= b
  {
    assert s == (a + b)[..|s|];
    assert s[|a|..] == b[..|s| - |a|];
  }

  lemma CarriedHeaders(segs: seq<seq<byte>>, headers: seq<seq<byte>>, cap: u16)
    requires Carry(segs, headers, cap)
    ensures HaveHeaders(segs, ACL_HEADER)
  {
  }

  lemma CarryKept(a: seq<seq<byte>>, b: seq<seq<byte>>, headers: seq<seq<byte>>, cap: u16)
    requires HaveHeaders(a, ACL_HEADER) && SameHeaders(a, b, ACL_HEADER) && Carry(a, headers, cap)
    ensures Carry(b, headers, cap)
  {
    forall i | 0 <= i < |b|
      ensures |b[i]| == ACL_HEADER + cap && b[i][..ACL_HEADER] == headers[i]
    {
      assert |a[i]| == |b[i]|;
    }
  }

  lemma {:induction false} RoomFor(segs: seq<seq<byte>>, h: handle, boundary: nat, broadcast: nat, size: u16, cap: u16)
    requires boundary < 4 && broadcast < 4 && cap > 0
    requires Carry(segs, Headers(h, boundary, broadcast, size, cap), cap) && HaveHeaders(segs, ACL_HEADER)
    ensures |Flat(segs, ACL_HEADER)| >= size
    decreases size
  {
    if size <= cap {
    } else {
      CarryRest(segs, h, boundary, broadcast, size, cap);
      RoomFor(segs[1..], h, CONTINUATION, broadcast, size - cap, cap);
    }
  }

  /** Creating a message, writing it in any pieces and ending it leaves exactly its frames in the chain,
      and `total` is their size. */
  method Fragment(h: handle, pieces: seq<seq<byte>>, size: u16, mtu: u16, broadcast: nat)
    returns (head: Packet?, total: nat, ghost chain: seq<Packet>)
    requires mtu > ACL_HEADER && broadcast < 4
    requires size == |Joined(pieces)| && SizeFits(size, mtu)
    ensures forall p :: p in chain ==> fresh(p) && fresh(p.data)
    ensures head == null <==> size == 0
    ensures head != null ==> IsChain(chain) && IsFirst(chain, head)
    ensures head != null ==> Segments(chain) == Frames(h, FIRST_FLUSH, broadcast, Joined(pieces), mtu - ACL_HEADER)
    ensures head != null ==> total == size + |chain| * ACL_HEADER
  {
    total := 0;
    ghost var cap: u16 := mtu - ACL_HEADER;
    hide Flat, FlatPos, Headers, Frames, Joined, Carry, SizeFits, IsChain, IsFirst, Segments, Patched, SameHeaders;
    head, chain := CreateMessage(h, size, mtu, broadcast);
    if head != null {
      total := FillAndFinish(head, chain, h, pieces, cap, broadcast);
    }
  }

  method FillAndFinish(head: Packet, ghost chain: seq<Packet>, ghost h: handle, pieces: seq<seq<byte>>, ghost cap: u16,
                       ghost broadcast: nat) returns (total: nat)
    requires broadcast < 4 && cap > 0 && 0 < |Joined(pieces)| < 0x1_0000
    requires IsChain(chain) && IsFirst(chain, head)
    requires Carry(Segments(chain), Headers(h, FIRST_FLUSH, broadcast, |Joined(pieces)|, cap), cap)
    modifies chain, Memory(chain)
    ensures IsChain(chain) && Segments(chain) == Frames(h, FIRST_FLUSH, broadcast, Joined(pieces), cap)
    ensures total == |Joined(pieces)| + |chain| * ACL_HEADER
  {
    hide Flat, FlatPos, Headers, Frames, Joined, Carry, IsChain, IsFirst, Segments, Patched, SameHeaders;
    var w := Open(head, chain, Headers(h, FIRST_FLUSH, broadcast, |Joined(pieces)|, cap), cap);
    Fill(w, h, pieces, cap, broadcast);
    total := Finish(w, head, h, Joined(pieces), cap, broadcast);
  }

  method Open(head: Packet, ghost chain: seq<Packet>, ghost headers: seq<seq<byte>>, ghost cap: u16) returns (w: Cursor)
    requires IsChain(chain) && IsFirst(chain, head) && Carry(Segments(chain), headers, cap)
    ensures fresh(w) && w.Valid() && w.headerSize == ACL_HEADER && w.Place() == 0
    ensures w.chain == chain && Carry(w.Packets(), headers, cap)
  {
    hide Flat, FlatPos, Carry;
    CarriedHeaders(Segments(chain), headers, cap);
    ChainHeaders(chain);
    ghost var segs := Segments(chain);
    w := new Cursor(head, ACL_HEADER, chain);
    assert w.Packets() == segs;
  }

  method Fill(w: Cursor, ghost h: handle, pieces: seq<seq<byte>>, ghost cap: u16, ghost broadcast: nat)
    requires broadcast < 4 && cap > 0 && 0 < |Joined(pieces)| < 0x1_0000
    requires w.Valid() && w.headerSize == ACL_HEADER && w.Place() == 0
    requires Carry(w.Packets(), Headers(h, FIRST_FLUSH, broadcast, |Joined(pieces)|, cap), cap)
    modifies w`packet, w`pos, w`k, Memory(w.chain)
    ensures w.Valid() && w.Place() == |Joined(pieces)| && Joined(pieces) <= w.Content()
    ensures Carry(w.Packets(), Headers(h, FIRST_FLUSH, broadcast, |Joined(pieces)|, cap), cap)
  {
    hide Flat, FlatPos, Headers, Joined, SameHeaders, Patched, Reports, Carry;
    ghost var blank, headers := w.Packets(), Headers(h, FIRST_FLUSH, broadcast, |Joined(pieces)|, cap);
    CarriedHeaders(blank, headers, cap);
    RoomFor(blank, h, FIRST_FLUSH, broadcast, |Joined(pieces)|, cap);
    var oks := WriteAll(w, pieces);
    CarryKept(blank, w.Packets(), headers, cap);
    StartsWith(w.Content(), Flat(blank, ACL_HEADER), Joined(pieces));
  }

  method Finish(w: Cursor, head: Packet, ghost h: handle, ghost payload: seq<byte>, ghost cap: u16,
                ghost broadcast: nat)
    returns (total: nat)
    requires broadcast < 4 && cap > 0 && 0 < |payload| < 0x1_0000
    requires w.Valid() && w.headerSize == ACL_HEADER && IsFirst(w.chain, head)
    requires Carry(w.Packets(), Headers(h, FIRST_FLUSH, broadcast, |payload|, cap), cap)
    requires w.Place() == |payload| && payload <= w.Content()
    modifies w.chain
    ensures w.Valid()
    ensures IsChain(w.chain) && Segments(w.chain) == Frames(h, FIRST_FLUSH, broadcast, payload, cap)
    ensures total == |payload| + |w.chain| * ACL_HEADER
  {
    hide Flat, FlatPos, Headers, Frames, Carry;
    CutToFrames(w.Packets(), h, FIRST_FLUSH, broadcast, payload, cap, w.k, w.pos);
    total := w.End(head);
  }

  lemma ChainHeaders(chain: seq<Packet>)
    requires IsChain(chain) && HaveHeaders(Segments(chain), ACL_HEADER)
    ensures forall i :: 0 <= i < |chain| ==> ACL_HEADER <= chain[i].size
  {
    forall i | 0 <= i < |chain|
      ensures ACL_HEADER <= chain[i].size
    {
      assert |Segments(chain)[i]| == chain[i].size;
    }
  }

  lemma StartsWith(now: seq<byte>, was: seq<byte>, bytes: seq<byte>)
    requires |bytes| <= |was| && now == Patched(was, 0, bytes[..|bytes|])
    ensures bytes <= now
  {
    assert bytes[..|bytes|] == bytes;
  }
}
