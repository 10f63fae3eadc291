/** What several modules need and none of them owns. */
module Prelude {
  datatype Option<+T> = None | Some(value: T)

  function Min(a: int, b: int): int {
    if a <= b then a else b
  }

  /** The MTU of an L2CAP channel that has agreed on none, and of the signalling channel. */
  const MTU_DEFAULT: nat := 672

  function Flatten<T>(parts: seq<seq<T>>): seq<T> {
    if parts == [] then [] else Flatten(parts[..|parts| - 1]) + parts[|parts| - 1]
  }

  lemma FlattenSnoc<T>(parts: seq<seq<T>>, last: seq<T>)
    ensures Flatten(parts + [last]) == Flatten(parts) + last
  {
    assert (parts + [last])[..|parts|] == parts;
  }

  /** Two runs that stand at the front of a third stand there one behind the other. */
  lemma {:induction false} PrefixSplit<T>(s: seq<T>, a: seq<T>, b: seq<T>)
    requires a + b <= s
    ensures a <= s && b <= s[|a|..]
  {
    assert s[..|a| + |b|] == a + b;
    assert s[|a|..][..|b|] == s[..|a| + |b|][|a|..];
  }
}
