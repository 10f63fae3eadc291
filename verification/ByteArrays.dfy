/** Writing a run of bytes into a fixed buffer, one byte at a time. */
module ByteArrays {
  import opened Bytes

  /** `s` with the bytes from `at` on replaced. */
  function Patched(s: seq<byte>, at: nat, bytes: seq<byte>): (r: seq<byte>)
    requires at + |bytes| <= |s|
    ensures |r| == |s|
  {
    s[..at] + bytes + s[at + |bytes|..]
  }

  lemma PatchTwice(s: seq<byte>, at: nat, a: seq<byte>, b: seq<byte>)
    requires at + |a| + |b| <= |s|
    ensures Patched(Patched(s, at, a), at + |a|, b) == Patched(s, at, a + b)
  {
    var once := Patched(s, at, a);
    assert once[..at + |a|] == s[..at] + a;
    assert once[at + |a| + |b|..] == s[at + |a| + |b|..];
  }

  method PutByte(de: array<byte>, at: nat, b: byte)
    requires at < de.Length
    modifies de
    ensures de[..] == Patched(old(de[..]), at, [b])
  {
    de[at] := b;
  }

  method PutBytes(de: array<byte>, at: nat, bytes: seq<byte>)
    requires at + |bytes| <= de.Length
    modifies de
    ensures de[..] == Patched(old(de[..]), at, bytes)
  {
    ghost var was := de[..];
    assert was == Patched(was, at, bytes[..0]);
    hide Patched;
    for i := 0 to |bytes|
      invariant de[..] == Patched(was, at, bytes[..i])
    {
      assert bytes[..i + 1] == bytes[..i] + [bytes[i]];
      PatchTwice(was, at, bytes[..i], [bytes[i]]);
      PutByte(de, at + i, bytes[i]);
    }
    assert bytes[..|bytes|] == bytes;
  }

  lemma PatchNothing(s: seq<byte>, at: nat)
    requires at <= |s|
    ensures Patched(s, at, []) == s
  {
  }
}
