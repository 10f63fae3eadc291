/** Data buffers as chains of packets, and the writer and reader that walk over them
    (buffer.h:35-485). The first bytes of every packet are reserved for a header. */
module Buffer {
  import opened Prelude
  import opened Bytes
  import opened ByteArrays

  class Packet {
    const data: array<byte>
    var size: nat
    var next: Packet?

    constructor (size: nat)
      ensures fresh(this) && fresh(data) && this.size == size == data.Length && next == null
    {
      this.data := new byte[size];
      this.size := size;
      this.next := null;
    }
  }

  /** The packets linked from the first one, with their own memory each. */
  ghost predicate IsChain(chain: seq<Packet>)
    reads chain
  {
    && chain != []
    && (forall i :: 0 <= i < |chain| ==> chain[i].size <= chain[i].data.Length)
    && (forall i :: 0 <= i < |chain| - 1 ==> chain[i].next == chain[i + 1])
    && chain[|chain| - 1].next == null
    && (forall i, j :: 0 <= i < j < |chain| ==> chain[i] != chain[j] && chain[i].data != chain[j].data)
  }

  ghost function Memory(chain: seq<Packet>): set<object> {
    set p | p in chain :: p.data
  }

  ghost function Segments(chain: seq<Packet>): (segs: seq<seq<byte>>)
    requires IsChain(chain)
    reads chain, Memory(chain)
    ensures |segs| == |chain|
    ensures forall i :: 0 <= i < |chain| ==> segs[i] == chain[i].data[..chain[i].size]
  {
    seq(|chain|,
        i requires 0 <= i < |chain| && IsChain(chain) reads chain, Memory(chain) => chain[i].data[..chain[i].size])
  }

  // ----- the flat view -----

  predicate HaveHeaders(segs: seq<seq<byte>>, h: nat) {
    forall i :: 0 <= i < |segs| ==> h <= |segs[i]|
  }

  /** The bytes behind the headers, in order. */
  function Flat(segs: seq<seq<byte>>, h: nat): seq<byte>
    requires HaveHeaders(segs, h)
  {
    if segs == [] then [] else segs[0][h..] + Flat(segs[1..], h)
  }

  /** Where position `pos` of packet k stands in the flat view. */
  function FlatPos(segs: seq<seq<byte>>, k: nat, pos: nat, h: nat): nat
    requires HaveHeaders(segs, h) && k < |segs| && h <= pos
  {
    if k == 0 then pos - h else |segs[0]| - h + FlatPos(segs[1..], k - 1, pos, h)
  }

  lemma {:induction false} FlatPosInside(segs: seq<seq<byte>>, k: nat, pos: nat, h: nat)
    requires HaveHeaders(segs, h) && k < |segs| && h <= pos <= |segs[k]|
    ensures FlatPos(segs, k, pos, h) + (|segs[k]| - pos) <= |Flat(segs, h)|
    ensures k == |segs| - 1 ==> FlatPos(segs, k, pos, h) + (|segs[k]| - pos) == |Flat(segs, h)|
    ensures Flat(segs, h)[FlatPos(segs, k, pos, h)..FlatPos(segs, k, pos, h) + (|segs[k]| - pos)] == segs[k][pos..]
    decreases k
  {
    if k == 0 {
      if |segs| == 1 {
        assert Flat(segs[1..], h) == [];
      }
    } else {
      FlatPosInside(segs[1..], k - 1, pos, h);
      var first, rest := segs[0][h..], Flat(segs[1..], h);
      var p := FlatPos(segs[1..], k - 1, pos, h);
      SliceAfter(first, rest, p, p + (|segs[k]| - pos));
    }
  }

  lemma SliceAfter(a: seq<byte>, b: seq<byte>, i: nat, j: nat)
    requires i <= j <= |b|
    ensures (a + b)[|a| + i..|a| + j] == b[i..j]
  {
  }

  /** The end of a packet and the first byte behind the next header are the same place. */
  lemma {:induction false} NextPacketSamePlace(segs: seq<seq<byte>>, k: nat, h: nat)
    requires HaveHeaders(segs, h) && k + 1 < |segs|
    ensures FlatPos(segs, k + 1, h, h) == FlatPos(segs, k, |segs[k]|, h)
    decreases k
  {
    if k == 0 {
    } else {
      NextPacketSamePlace(segs[1..], k - 1, h);
    }
  }

  /** Writing inside one packet is writing at the same place of the flat view. */
  lemma {:induction false} FlatPatch(segs: seq<seq<byte>>, k: nat, pos: nat, h: nat, bytes: seq<byte>)
    requires HaveHeaders(segs, h) && k < |segs| && h <= pos && pos + |bytes| <= |segs[k]|
    ensures HaveHeaders(segs[k := Patched(segs[k], pos, bytes)], h)
    ensures FlatPos(segs, k, pos, h) + |bytes| <= |Flat(segs, h)|
    ensures Flat(segs[k := Patched(segs[k], pos, bytes)], h) == Patched(Flat(segs, h), FlatPos(segs, k, pos, h), bytes)
    decreases k
  {
    FlatPosInside(segs, k, pos, h);
    var seg := Patched(segs[k], pos, bytes);
    var after := segs[k := seg];
    if k == 0 {
      assert after[1..] == segs[1..];
      assert seg[h..] == Patched(segs[0][h..], pos - h, bytes);
      PatchFront(segs[0][h..], Flat(segs[1..], h), pos - h, bytes);
    } else {
      FlatPatch(segs[1..], k - 1, pos, h, bytes);
      assert after[1..] == segs[1..][k - 1 := seg];
      PatchBack(segs[0][h..], Flat(segs[1..], h), FlatPos(segs[1..], k - 1, pos, h), bytes);
    }
  }

  lemma PatchFront(a: seq<byte>, b: seq<byte>, at: nat, bytes: seq<byte>)
    requires at + |bytes| <= |a|
    ensures Patched(a + b, at, bytes) == Patched(a, at, bytes) + b
  {
  }

  lemma PatchBack(a: seq<byte>, b: seq<byte>, at: nat, bytes: seq<byte>)
    requires at + |bytes| <= |b|
    ensures Patched(a + b, |a| + at, bytes) == a + Patched(b, at, bytes)
  {
  }

  /** Packet by packet the same size and the same header bytes. */
  predicate SameHeaders(a: seq<seq<byte>>, b: seq<seq<byte>>, h: nat)
    requires HaveHeaders(a, h)
  {
    |a| == |b| && forall i :: 0 <= i < |a| ==> |a[i]| == |b[i]| && a[i][..h] == b[i][..h]
  }

  lemma PatchKeepsHeaders(segs: seq<seq<byte>>, k: nat, pos: nat, bytes: seq<byte>, h: nat)
    requires HaveHeaders(segs, h) && k < |segs| && h <= pos && pos + |bytes| <= |segs[k]|
    ensures SameHeaders(segs, segs[k := Patched(segs[k], pos, bytes)], h)
  {
    assert Patched(segs[k], pos, bytes)[..h] == segs[k][..h];
  }

  lemma HeadersAreOwn(segs: seq<seq<byte>>, h: nat)
    requires HaveHeaders(segs, h)
    ensures SameHeaders(segs, segs, h)
  {
  }

  lemma HeadersStaySame(a: seq<seq<byte>>, b: seq<seq<byte>>, c: seq<seq<byte>>, h: nat)
    requires HaveHeaders(a, h) && SameHeaders(a, b, h) && SameHeaders(b, c, h)
    ensures SameHeaders(a, c, h)
  {
    forall i | 0 <= i < |a|
      ensures |a[i]| == |c[i]| && a[i][..h] == c[i][..h]
    {
      assert |b[i]| == |a[i]| && b[i][..h] == a[i][..h];
    }
  }

  /** Of the packets `segs`, whose flat view is `flat`, only bytes behind the headers have changed: `sofar` now
      stands from `start` on, and the cursor behind it. */
  ghost predicate WrittenTo(segs: seq<seq<byte>>, h: nat, flat: seq<byte>, start: nat, sofar: seq<byte>,
                            now: seq<seq<byte>>, place: nat, content: seq<byte>) {
    && HaveHeaders(segs, h) && SameHeaders(segs, now, h)
    && start + |sofar| == place <= |flat| && content == Patched(flat, start, sofar)
  }

  lemma NothingWritten(segs: seq<seq<byte>>, h: nat, flat: seq<byte>, start: nat, bytes: seq<byte>)
    requires HaveHeaders(segs, h) && start <= |flat|
    ensures WrittenTo(segs, h, flat, start, [], segs, start, flat) && bytes == [] + bytes
  {
    HeadersAreOwn(segs, h);
    PatchNothing(flat, start);
  }

  lemma MoreWritten(segs: seq<seq<byte>>, h: nat, flat: seq<byte>, start: nat, sofar: seq<byte>, was: seq<seq<byte>>,
                    place: nat,
                    content: seq<byte>, rest: seq<byte>, n: nat, now: seq<seq<byte>>, place': nat, content': seq<byte>)
    requires WrittenTo(segs, h, flat, start, sofar, was, place, content) && HaveHeaders(was, h) &&
      SameHeaders(was, now, h)
    requires n <= |rest| && place + n == place' <= |content| && content' == Patched(content, place, rest[..n])
    ensures WrittenTo(segs, h, flat, start, sofar + rest[..n], now, place', content')
    ensures sofar + rest == (sofar + rest[..n]) + rest[n..]
  {
    hide SameHeaders, Patched, HaveHeaders;
    HeadersStaySame(segs, was, now, h);
    PatchTwice(flat, start, sofar, rest[..n]);
    assert rest == rest[..n] + rest[n..];
  }

  lemma AllWritten(segs: seq<seq<byte>>, h: nat, flat: seq<byte>, start: nat, bytes: seq<byte>, sofar: seq<byte>,
                   rest: seq<byte>,
                   now: seq<seq<byte>>, place: nat, content: seq<byte>)
    requires WrittenTo(segs, h, flat, start, sofar, now, place, content) && bytes == sofar + rest
    requires rest == [] || place == |content|
    ensures start <= place <= |flat| == |content| && place == Min(start + |bytes|, |flat|)
    ensures place - start <= |bytes| && content == Patched(flat, start, bytes[..place - start])
    ensures HaveHeaders(segs, h) && SameHeaders(segs, now, h)
    ensures rest == [] <==> start + |bytes| <= |flat|
  {
    hide SameHeaders, HaveHeaders;
    assert bytes[..|sofar|] == sofar;
  }

  lemma Joint(s: seq<byte>, i: nat, j: nat, k: nat)
    requires i <= j <= k <= |s|
    ensures s[i..j] + s[j..k] == s[i..k]
  {
  }

  // ----- the cursor -----

  /** The record a writer and a reader share: where in the chain the next byte goes or comes from. */
  class Cursor {
    var packet: Packet
    var pos: nat
    const headerSize: nat
    ghost const chain: seq<Packet>
    ghost var k: nat

    ghost predicate Valid()
      reads this, chain, Memory(chain)
    {
      && IsChain(chain)
      && (forall i :: 0 <= i < |chain| ==> headerSize <= chain[i].size)
      && k < |chain| && packet == chain[k]
      && headerSize <= pos <= packet.size
    }

    /** All bytes behind the headers, as one stream. */
    ghost function Content(): seq<byte>
      requires Valid()
      reads this, chain, Memory(chain)
    {
      Flat(Segments(chain), headerSize)
    }

    ghost function Packets(): (segs: seq<seq<byte>>)
      requires Valid()
      reads this, chain, Memory(chain)
      ensures HaveHeaders(segs, headerSize)
    {
      Segments(chain)
    }

    /** How far into that stream the cursor is. */
    ghost function Place(): nat
      requires Valid()
      reads this, chain, Memory(chain)
    {
      FlatPos(Segments(chain), k, pos, headerSize)
    }

    constructor (packet: Packet, headerSize: nat, ghost chain: seq<Packet>)
      requires IsChain(chain) && chain[0] == packet
      requires forall i :: 0 <= i < |chain| ==> headerSize <= chain[i].size
      ensures Valid() && this.chain == chain && this.headerSize == headerSize
      ensures Place() == 0
    {
      this.packet := packet;
      this.headerSize := headerSize;
      this.pos := headerSize;
      this.chain := chain;
      this.k := 0;
    }

    lemma PlaceInside()
      requires Valid()
      ensures Place() + (packet.size - pos) <= |Content()|
      ensures packet.next == null ==> Place() + (packet.size - pos) == |Content()|
      ensures Content()[Place()..Place() + (packet.size - pos)] == packet.data[pos..packet.size]
    {
      var segs := Segments(chain);
      FlatPosInside(segs, k, pos, headerSize);
      if k < |chain| - 1 {
        assert chain[k].next == chain[k + 1];
      }
      assert segs[k][pos..] == packet.data[pos..packet.size];
    }

    lemma HeadersHere()
      requires Valid()
      ensures HaveHeaders(Segments(chain), headerSize)
    {
    }

    method NextPacket() returns (more: bool)
      requires Valid() && pos == packet.size
      modifies this`packet, this`pos, this`k
      ensures Valid() && Content() == old(Content()) && Place() == old(Place())
      ensures more == (old(packet.next) != null)
      ensures more ==> k == old(k) + 1
      ensures !more ==> k == old(k) && packet == old(packet) && pos == old(pos)
    {
      hide Flat, FlatPos;
      more := packet.next != null;
      ghost var segs := Segments(chain);
      assert k < |chain| - 1 ==> chain[k].next == chain[k + 1];
      if more {
        NextPacketSamePlace(segs, k, headerSize);
        packet := packet.next;
        pos := headerSize;
        k := k + 1;
        assert Segments(chain) == segs;
      }
    }

    /** Bytes go into the current packet. */
    method PutHere(bytes: seq<byte>)
      requires Valid() && pos + |bytes| <= packet.size
      modifies packet.data
      ensures Valid() && k < |old(Packets())| && pos + |bytes| <= |old(Packets())[k]|
      ensures Packets() == old(Packets())[k := Patched(old(Packets())[k], pos, bytes)]
    {
      hide Patched;
      ghost var segs, was := Segments(chain), packet.data[..];
      assert segs[k] == was[..packet.size];
      PutBytes(packet.data, pos, bytes);
      PatchedStart(was, packet.size, pos, bytes);
      assert Segments(chain)[k] == Patched(segs[k], pos, bytes);
      assert Segments(chain) == segs[k := Patched(segs[k], pos, bytes)];
    }

    method Advance(n: nat)
      requires Valid() && pos + n <= packet.size
      modifies this`pos
      ensures Valid() && pos == old(pos) + n && Packets() == old(Packets())
      ensures Content() == old(Content()) && Place() == old(Place()) + n
    {
      hide Flat, FlatPos;
      Shift(Segments(chain), k, pos, n, headerSize);
      pos := pos + n;
    }

    /** The flat view and the place are those of the packets. */
    lemma Views()
      requires Valid()
      ensures k < |Packets()| && headerSize <= pos <= |Packets()[k]|
      ensures Content() == Flat(Packets(), headerSize) && Place() == FlatPos(Packets(), k, pos, headerSize)
    {
      hide Flat, FlatPos;
    }

    method WriteHere(bytes: seq<byte>)
      requires Valid() && pos + |bytes| <= packet.size
      modifies this`pos, packet.data
      ensures Valid() && pos == old(pos) + |bytes|
      ensures old(Place()) + |bytes| <= |old(Content())|
      ensures Content() == Patched(old(Content()), old(Place()), bytes)
      ensures Place() == old(Place()) + |bytes|
      ensures SameHeaders(old(Packets()), Packets(), headerSize)
    {
      hide *;
      ghost var segs := Packets();
      Views();
      PutHere(bytes);
      PatchKeepsHeaders(segs, k, pos, bytes, headerSize);
      FlatPatch(segs, k, pos, headerSize, bytes);
      Views();
      SamePlace(segs, Packets(), k, pos, headerSize);
      Advance(|bytes|);
    }

    /** One turn of the writing loop: fill the current packet, step to the next one if bytes are left. */
    method WriteSome(bytes: seq<byte>) returns (n: nat, stuck: bool)
      requires Valid()
      modifies this`packet, this`pos, this`k, Memory(chain)
      ensures Valid() && n <= |bytes|
      ensures old(Place()) + n == Place() <= |Content()| == |old(Content())|
      ensures Content() == Patched(old(Content()), old(Place()), bytes[..n])
      ensures SameHeaders(old(Packets()), Packets(), headerSize)
      ensures stuck ==> n < |bytes| && Place() == |Content()|
      ensures n < |bytes| && !stuck ==> k == old(k) + 1
    {
      hide Flat, FlatPos, Patched, SameHeaders;
      PlaceInside();
      n := if pos + |bytes| <= packet.size then |bytes| else packet.size - pos;
      WriteHere(bytes[..n]);
      PlaceInside();
      stuck := false;
      if n < |bytes| {
        ghost var segs := Segments(chain);
        var more := NextPacket();
        assert Segments(chain) == segs;
        stuck := !more;
      }
    }

    /** Copies as much of `bytes` as there is room for. */
    method Write(bytes: seq<byte>) returns (ok: bool)
      requires Valid()
      modifies this`packet, this`pos, this`k, Memory(chain)
      ensures Valid()
      ensures old(Place()) <= |old(Content())|
      ensures ok <==> old(Place()) + |bytes| <= |old(Content())|
      ensures Place() == Min(old(Place()) + |bytes|, |old(Content())|)
      ensures Content() == Patched(old(Content()), old(Place()), bytes[..Place() - old(Place())])
      ensures SameHeaders(old(Packets()), Packets(), headerSize)
    {
      ghost var segs, flat, start := Packets(), Content(), Place();
      hide *;
      var rest, stuck := bytes, false;
      ghost var sofar: seq<byte> := [];
      PlaceInside();
      NothingWritten(segs, headerSize, flat, start, bytes);
      while rest != [] && !stuck
        invariant Valid() && bytes == sofar + rest
        invariant WrittenTo(segs, headerSize, flat, start, sofar, Packets(), Place(), Content())
        invariant stuck ==> rest != [] && Place() == |Content()|
        decreases !stuck, |rest|, |chain| - k
      {
        ghost var was, content, place := Packets(), Content(), Place();
        var n;
        n, stuck := WriteSome(rest);
        MoreWritten(segs, headerSize, flat, start, sofar, was, place, content, rest, n, Packets(), Place(), Content());
        sofar := sofar + rest[..n];
        rest := rest[n..];
      }
      AllWritten(segs, headerSize, flat, start, bytes, sofar, rest, Packets(), Place(), Content());
      ok := !stuck;
    }

    method ReadHere(n: nat) returns (bytes: seq<byte>)
      requires Valid() && pos + n <= packet.size
      modifies this`pos
      ensures Valid() && pos == old(pos) + n && Content() == old(Content())
      ensures Place() == old(Place()) + n <= |Content()|
      ensures bytes == Content()[old(Place())..Place()]
    {
      hide Flat, FlatPos;
      PlaceInside();
      bytes := packet.data[pos..pos + n];
      assert bytes == packet.data[pos..packet.size][..n];
      Advance(n);
    }

    /** Copies out up to `size` bytes. */
    method Read(size: nat) returns (bytes: seq<byte>)
      requires Valid()
      modifies this`packet, this`pos, this`k
      ensures Valid() && Content() == old(Content()) && old(Place()) <= |Content()|
      ensures Place() == Min(old(Place()) + size, |Content()|)
      ensures bytes == Content()[old(Place())..Place()]
    {
      hide Flat, FlatPos, IsChain;
      ghost var flat, start := Content(), Place();
      PlaceInside();
      var rest := size;
      bytes := [];
      while rest > 0
        invariant Valid() && Content() == flat && 0 <= rest && rest + |bytes| == size
        invariant Place() == start + |bytes| <= |flat|
        invariant bytes == flat[start..Place()]
        decreases rest, |chain| - k
      {
        PlaceInside();
        var n := if pos + rest <= packet.size then rest else packet.size - pos;
        ghost var at := Place();
        var part := ReadHere(n);
        Joint(flat, start, at, at + n);
        bytes := bytes + part;
        rest := rest - n;
        if rest > 0 {
          PlaceInside();
          var more := NextPacket();
          if !more {
            return;
          }
        }
      }
    }

    /** Adds up the packet sizes up to the cursor's packet. */
    method SizeSoFar(first: Packet) returns (totalSize: nat)
      requires Valid() && first == chain[0] && pos == packet.size
      ensures totalSize == Place() + (k + 1) * headerSize
    {
      hide Flat, FlatPos;
      totalSize := first.size;
      var at := first;
      ghost var i, segs := 0, Segments(chain);
      ghost var headers: nat := headerSize;
      FirstPlace(segs, headerSize);
      while at != packet
        invariant 0 <= i <= k && at == chain[i] && headers == (i + 1) * headerSize
        invariant totalSize == FlatPos(segs, i, at.size, headerSize) + headers
        decreases k - i
      {
        NextPacketSamePlace(segs, i, headerSize);
        Shift(segs, i + 1, headerSize, |segs[i + 1]| - headerSize, headerSize);
        assert at.next == chain[i + 1];
        OneMore(i + 1, headerSize);
        at := at.next;
        i := i + 1;
        headers := headers + headerSize;
        totalSize := totalSize + at.size;
      }
      assert i == k && headers == (k + 1) * headerSize;
      assert at.size == pos && totalSize == FlatPos(segs, k, pos, headerSize) + headers;
      assert Segments(chain) == segs;
    }

    /** Cuts the packet the cursor is in down to what was written; packets after it stay linked. */
    method End(first: Packet) returns (totalSize: nat)
      requires Valid() && first == chain[0]
      modifies packet`size
      ensures Valid() && packet.size == pos
      ensures Segments(chain) == old(Segments(chain))[k := old(Segments(chain))[k][..pos]]
      ensures Place() == old(Place())
      ensures totalSize == Place() + (k + 1) * headerSize
    {
      hide Flat, FlatPos;
      ghost var segs := Segments(chain);
      packet.size := pos;
      assert Segments(chain)[k] == segs[k][..pos];
      assert Segments(chain) == segs[k := segs[k][..pos]];
      SamePlaceBefore(segs, Segments(chain), k, pos, headerSize);
      totalSize := SizeSoFar(first);
    }
  }

  lemma OneMore(n: nat, h: nat)
    ensures n * h + h == (n + 1) * h
  {
  }

  lemma FirstPlace(segs: seq<seq<byte>>, h: nat)
    requires HaveHeaders(segs, h) && segs != []
    ensures FlatPos(segs, 0, |segs[0]|, h) == |segs[0]| - h
  {
  }

  lemma {:induction false} SamePlaceBefore(a: seq<seq<byte>>, b: seq<seq<byte>>, k: nat, pos: nat, h: nat)
    requires HaveHeaders(a, h) && HaveHeaders(b, h) && |a| == |b| && k < |a| && h <= pos
    requires forall i :: 0 <= i < k ==> |a[i]| == |b[i]|
    ensures FlatPos(a, k, pos, h) == FlatPos(b, k, pos, h)
    decreases k
  {
    if k == 0 {
    } else {
      SamePlaceBefore(a[1..], b[1..], k - 1, pos, h);
    }
  }

  lemma SamePlace(a: seq<seq<byte>>, b: seq<seq<byte>>, k: nat, pos: nat, h: nat)
    requires HaveHeaders(a, h) && HaveHeaders(b, h) && SameHeaders(a, b, h) && k < |a| && h <= pos
    ensures FlatPos(a, k, pos, h) == FlatPos(b, k, pos, h)
  {
    hide FlatPos;
    SamePlaceBefore(a, b, k, pos, h);
  }

  lemma PatchedStart(s: seq<byte>, size: nat, at: nat, bytes: seq<byte>)
    requires at + |bytes| <= size <= |s|
    ensures Patched(s, at, bytes)[..size] == Patched(s[..size], at, bytes)
  {
  }

  lemma {:induction false} Shift(segs: seq<seq<byte>>, k: nat, pos: nat, n: nat, h: nat)
    requires HaveHeaders(segs, h) && k < |segs| && h <= pos
    ensures FlatPos(segs, k, pos + n, h) == FlatPos(segs, k, pos, h) + n
    decreases k
  {
    if k == 0 {
    } else {
      Shift(segs[1..], k - 1, pos, n, h);
    }
  }

  // ----- runs of writes and reads -----

  function Joined(pieces: seq<seq<byte>>): seq<byte> {
    if pieces == [] then [] else Joined(pieces[..|pieces| - 1]) + pieces[|pieces| - 1]
  }

  function Sum(sizes: seq<nat>): nat {
    if sizes == [] then 0 else Sum(sizes[..|sizes| - 1]) + sizes[|sizes| - 1]
  }

  lemma JoinedSnoc(pieces: seq<seq<byte>>, i: nat)
    requires i < |pieces|
    ensures Joined(pieces[..i + 1]) == Joined(pieces[..i]) + pieces[i]
  {
    assert pieces[..i + 1][..i] == pieces[..i];
  }

  lemma SumSnoc(sizes: seq<nat>, i: nat)
    requires i < |sizes|
    ensures Sum(sizes[..i + 1]) == Sum(sizes[..i]) + sizes[i]
  {
    assert sizes[..i + 1][..i] == sizes[..i];
  }

  /** A second write after a first one that may have been cut short by the end of the buffer. */
  lemma WriteOn(flat: seq<byte>, start: nat, a: seq<byte>, b: seq<byte>)
    requires start <= |flat|
    ensures
      var n := Min(start + |a|, |flat|) - start;
      var m := Min(start + n + |b|, |flat|) - (start + n);
      && Patched(Patched(flat, start, a[..n]), start + n, b[..m]) == Patched(flat, start, (a + b)[..n + m])
      && start + n + m == Min(start + |a + b|, |flat|)
  {
    var n := Min(start + |a|, |flat|) - start;
    var m := Min(start + n + |b|, |flat|) - (start + n);
    PatchTwice(flat, start, a[..n], b[..m]);
    assert (a + b)[..n + m] == a[..n] + b[..m];
  }

  /** Of the packets `segs`, only bytes behind the headers have changed: `bytes`, as much of them as fits,
      now stands from `start` on. */
  ghost predicate Written(w: Cursor, segs: seq<seq<byte>>, start: nat, bytes: seq<byte>)
    requires w.Valid() && HaveHeaders(segs, w.headerSize) && start <= |Flat(segs, w.headerSize)|
    reads w, w.chain, Memory(w.chain)
  {
    && FitsUpTo(Flat(segs, w.headerSize), start, bytes, w.Place(), w.Content())
    && SameHeaders(segs, w.Packets(), w.headerSize)
  }

  ghost predicate FitsUpTo(flat: seq<byte>, start: nat, bytes: seq<byte>, place: nat, content: seq<byte>)
    requires start <= |flat|
  {
    var end := Min(start + |bytes|, |flat|);
    place == end && content == Patched(flat, start, bytes[..end - start])
  }

  lemma FitsOn(flat: seq<byte>, start: nat, a: seq<byte>, place: nat, content: seq<byte>, b: seq<byte>, place': nat,
               content': seq<byte>)
    requires start <= |flat| && FitsUpTo(flat, start, a, place, content) && place <= |content|
    requires place' == Min(place + |b|, |content|) && content' == Patched(content, place, b[..place' - place])
    ensures FitsUpTo(flat, start, a + b, place', content') && |content| == |flat|
    ensures place + |b| <= |content| <==> b == [] || start + |a + b| <= |flat|
  {
    hide Patched;
    WriteOn(flat, start, a, b);
  }

  method WriteMore(w: Cursor, ghost segs: seq<seq<byte>>, ghost start: nat, ghost sofar: seq<byte>, piece: seq<byte>)
    returns (ok: bool)
    requires w.Valid() && HaveHeaders(segs, w.headerSize) && start <= |Flat(segs, w.headerSize)|
    requires Written(w, segs, start, sofar)
    modifies w`packet, w`pos, w`k, Memory(w.chain)
    ensures w.Valid() && Written(w, segs, start, sofar + piece)
    ensures ok <==> piece == [] || start + |sofar + piece| <= |Flat(segs, w.headerSize)|
  {
    hide Flat, FlatPos, Patched, SameHeaders, HaveHeaders, IsChain, FitsUpTo, Segments;
    ghost var before, place, content := w.Packets(), w.Place(), w.Content();
    ok := w.Write(piece);
    HeadersStaySame(segs, before, w.Packets(), w.headerSize);
    FitsOn(Flat(segs, w.headerSize), start, sofar, place, content, piece, w.Place(), w.Content());
  }

  /** A write reports success exactly when everything up to and including it has room, or it is empty. */
  predicate Reports(oks: seq<bool>, pieces: seq<seq<byte>>, room: nat) {
    && |oks| <= |pieces|
    && forall j :: 0 <= j < |oks| ==> (oks[j] <==> pieces[j] == [] || |Joined(pieces[..j + 1])| <= room)
  }

  lemma ReportsNothing(pieces: seq<seq<byte>>, room: nat)
    ensures Reports([], pieces, room)
  {
  }

  lemma ReportsSnoc(oks: seq<bool>, pieces: seq<seq<byte>>, room: nat, ok: bool)
    requires Reports(oks, pieces, room) && |oks| < |pieces|
    requires ok <==> pieces[|oks|] == [] || |Joined(pieces[..|oks| + 1])| <= room
    ensures Reports(oks + [ok], pieces, room)
  {
    hide Joined;
  }

  lemma NothingWrittenYet(w: Cursor)
    requires w.Valid()
    ensures HaveHeaders(w.Packets(), w.headerSize)
    ensures w.Place() <= |w.Content()| && Written(w, w.Packets(), w.Place(), Joined([]))
  {
    w.HeadersHere();
    w.PlaceInside();
  }

  /** A run of writes is one write of all the pieces put together. */
  method WriteAll(w: Cursor, pieces: seq<seq<byte>>) returns (oks: seq<bool>)
    requires w.Valid()
    modifies w`packet, w`pos, w`k, Memory(w.chain)
    ensures w.Valid() && old(w.Place()) <= |old(w.Content())|
    ensures Written(w, old(w.Packets()), old(w.Place()), Joined(pieces))
    ensures Reports(oks, pieces, |old(w.Content())| - old(w.Place())) && |oks| == |pieces|
  {
    hide Flat, FlatPos, Joined, Written, Reports;
    ghost var segs, start, room := w.Packets(), w.Place(), |w.Content()| - w.Place();
    NothingWrittenYet(w);
    ReportsNothing(pieces, room);
    oks := [];
    for i := 0 to |pieces|
      invariant w.Valid() && |oks| == i
      invariant Written(w, segs, start, Joined(pieces[..i]))
      invariant Reports(oks, pieces, room)
    {
      JoinedSnoc(pieces, i);
      var ok := WriteMore(w, segs, start, Joined(pieces[..i]), pieces[i]);
      ReportsSnoc(oks, pieces, room, ok);
      oks := oks + [ok];
    }
    assert pieces[..|pieces|] == pieces;
  }

  lemma JoinedNothing()
    ensures Joined([]) == []
  {
  }

  method ReadAll(r: Cursor, sizes: seq<nat>) returns (parts: seq<seq<byte>>)
    requires r.Valid()
    modifies r`packet, r`pos, r`k
    ensures r.Valid() && r.Content() == old(r.Content()) && |parts| == |sizes|
    ensures old(r.Place()) <= |r.Content()|
    ensures r.Place() == Min(old(r.Place()) + Sum(sizes), |r.Content()|)
    ensures Joined(parts) == r.Content()[old(r.Place())..r.Place()]
  {
    hide Flat, FlatPos, Joined, Sum;
    ghost var flat, start := r.Content(), r.Place();
    r.PlaceInside();
    JoinedNothing();
    parts := [];
    assert Sum(sizes[..0]) == 0 by { SumNothing(); }
    for i := 0 to |sizes|
      invariant r.Valid() && r.Content() == flat && |parts| == i
      invariant r.Place() == Min(start + Sum(sizes[..i]), |flat|) >= start
      invariant Joined(parts) == flat[start..r.Place()]
    {
      ghost var at := r.Place();
      var part := r.Read(sizes[i]);
      ghost var more := parts + [part];
      JoinedSnoc(more, i);
      assert more[..i] == parts && more[..i + 1] == more;
      SumSnoc(sizes, i);
      Joint(flat, start, at, r.Place());
      parts := parts + [part];
    }
    assert sizes[..|sizes|] == sizes;
  }

  lemma SumNothing()
    ensures Sum([]) == 0
  {
  }

  ghost predicate Spans(chain: seq<Packet>, first: Packet, headerSize: nat)
    reads chain
  {
    IsChain(chain) && chain[0] == first && forall i :: 0 <= i < |chain| ==> headerSize <= chain[i].size
  }

  ghost function Stream(chain: seq<Packet>, first: Packet, headerSize: nat): seq<byte>
    requires Spans(chain, first, headerSize)
    reads chain, Memory(chain)
  {
    Flat(Segments(chain), headerSize)
  }

  method WriteStream(first: Packet, headerSize: nat, ghost chain: seq<Packet>, pieces: seq<seq<byte>>)
    returns (oks: seq<bool>)
    requires Spans(chain, first, headerSize)
    modifies Memory(chain)
    ensures Spans(chain, first, headerSize) && |oks| == |pieces|
    ensures SameHeaders(old(Segments(chain)), Segments(chain), headerSize)
    ensures
      var was, all := old(Stream(chain, first, headerSize)), Joined(pieces);
      && Stream(chain, first, headerSize) == Patched(was, 0, all[..Min(|all|, |was|)])
      && Reports(oks, pieces, |was|)
  {
    hide Flat, FlatPos, Reports, Joined, SameHeaders, Patched, IsChain;
    var w := new Cursor(first, headerSize, chain);
    oks := WriteAll(w, pieces);
  }

  method ReadStream(first: Packet, headerSize: nat, ghost chain: seq<Packet>, sizes: seq<nat>)
    returns (parts: seq<seq<byte>>)
    requires Spans(chain, first, headerSize)
    ensures
      var now := Stream(chain, first, headerSize);
      Joined(parts) == now[..Min(Sum(sizes), |now|)] && |parts| == |sizes|
  {
    hide Flat, FlatPos, Joined, Sum;
    var r := new Cursor(first, headerSize, chain);
    parts := ReadAll(r, sizes);
  }

  /** Writing in any pieces and then reading in any pieces is copying through one flat run of bytes:
      neither the pieces nor the packet borders show. */
  method WriteThenRead(first: Packet, headerSize: nat, ghost chain: seq<Packet>, pieces: seq<seq<byte>>,
                       sizes: seq<nat>)
    returns (oks: seq<bool>, parts: seq<seq<byte>>)
    requires Spans(chain, first, headerSize)
    modifies Memory(chain)
    ensures
      var was, all := old(Stream(chain, first, headerSize)), Joined(pieces);
      var now := Patched(was, 0, all[..Min(|all|, |was|)]);
      && Joined(parts) == now[..Min(Sum(sizes), |now|)] && |parts| == |sizes|
      && Reports(oks, pieces, |was|) && |oks| == |pieces|
  {
    hide Stream, Spans, Reports, Joined, Sum, Patched, SameHeaders;
    oks := WriteStream(first, headerSize, chain, pieces);
    parts := ReadStream(first, headerSize, chain, sizes);
  }

  // ----- building chains -----

  /** The sizes `bte_buffer_alloc` cuts a buffer into. */
  function Split(size: nat, block: nat): seq<nat>
    requires block > 0
  {
    if size == 0 then [] else if size <= block then [size] else [block] + Split(size - block, block)
  }

  ghost function Sizes(chain: seq<Packet>): (sizes: seq<nat>)
    reads chain
    ensures |sizes| == |chain| && forall i :: 0 <= i < |chain| ==> sizes[i] == chain[i].size
  {
    seq(|chain|, i requires 0 <= i < |chain| reads chain => chain[i].size)
  }

  /** Links a packet behind the last one. */
  method Link(ghost chain: seq<Packet>, tail: Packet, p: Packet)
    requires IsChain(chain) && tail == chain[|chain| - 1]
    requires p.size <= p.data.Length && p.next == null && p !in chain
    requires forall q :: q in chain ==> q.data != p.data
    modifies tail`next
    ensures IsChain(chain + [p])
  {
    tail.next := p;
  }

  /** A new packet behind the last one. */
  method LinkNew(ghost chain: seq<Packet>, tail: Packet, n: nat) returns (p: Packet)
    requires IsChain(chain) && chain != [] && tail == chain[|chain| - 1]
    modifies tail`next
    ensures fresh(p) && fresh(p.data)
    ensures IsChain(chain + [p]) && Sizes(chain + [p]) == old(Sizes(chain)) + [n]
  {
    hide Split;
    p := new Packet(n);
    Link(chain, tail, p);
  }

  ghost predicate IsFirst(chain: seq<Packet>, head: Packet?) {
    chain != [] && chain[0] == head
  }

  method Alloc(size: nat, block: nat) returns (head: Packet?, ghost chain: seq<Packet>)
    requires block > 0
    ensures forall p :: p in chain ==> fresh(p) && fresh(p.data)
    ensures head == null <==> size == 0
    ensures size > 0 ==> IsChain(chain) && IsFirst(chain, head) && Sizes(chain) == Split(size, block)
  {
    head := null;
    chain := [];
    if size > 0 {
      var n := if size > block then block else size;
      var tail := new Packet(n);
      head, chain := tail, [tail];
      var remaining: nat := size - n;
      FirstSize(size, block, n);
      assert IsChain(chain) && Sizes(chain) == [n];
      hide IsChain, Sizes, Split, IsFirst;
      while remaining > 0
        invariant forall p :: p in chain ==> fresh(p) && fresh(p.data)
        invariant IsChain(chain) && chain != [] && IsFirst(chain, head) && tail == chain[|chain| - 1]
        invariant Sizes(chain) + Split(remaining, block) == Split(size, block)
      {
        n := if remaining > block then block else remaining;
        NextSize(Sizes(chain), remaining, block, n);
        StaysFirst(chain, head);
        var p := LinkNew(chain, tail, n);
        chain := chain + [p];
        tail := p;
        remaining := remaining - n;
      }
      NoMoreSizes(Sizes(chain), block);
    }
  }

  lemma StaysFirst(chain: seq<Packet>, head: Packet?)
    requires IsFirst(chain, head)
    ensures forall p :: IsFirst(chain + [p], head)
  {
  }

  lemma FirstSize(size: nat, block: nat, n: nat)
    requires block > 0 && size > 0 && n == if size > block then block else size
    ensures [n] + Split(size - n, block) == Split(size, block)
  {
  }

  lemma NextSize(sizes: seq<nat>, size: nat, block: nat, n: nat)
    requires block > 0 && size > 0 && n == if size > block then block else size
    ensures sizes + [n] + Split(size - n, block) == sizes + Split(size, block)
  {
    FirstSize(size, block, n);
    hide Split;
    assert sizes + [n] + Split(size - n, block) == sizes + ([n] + Split(size - n, block));
  }

  lemma NoMoreSizes(sizes: seq<nat>, block: nat)
    requires block > 0
    ensures sizes + Split(0, block) == sizes
  {
  }

  /** Walks to the last packet and links another one behind it. */
  method Append(head: Packet, ghost chain: seq<Packet>, p: Packet)
    requires IsChain(chain) && chain[0] == head
    requires p.size <= p.data.Length && p.next == null && p !in chain
    requires forall q :: q in chain ==> q.data != p.data
    modifies chain
    ensures forall q :: q in chain + [p] ==> q.size == old(q.size)
    ensures IsChain(chain + [p])
  {
    var tail := head;
    ghost var i := 0;
    while tail.next != null
      invariant 0 <= i < |chain| && tail == chain[i]
      invariant tail.next == if i + 1 < |chain| then chain[i + 1] else null
      decreases |chain| - i
    {
      assert i + 2 < |chain| ==> chain[i + 1].next == chain[i + 2];
      tail := tail.next;
      i := i + 1;
    }
    Link(chain, tail, p);
  }
}
