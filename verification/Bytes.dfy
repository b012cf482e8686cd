/** Byte strings and the handful of string relations every component speaks about. */
module Bytes {

  type Byte = b: int | 0 <= b < 256
  type Text = seq<Byte>

  const TAB: Byte := 9
  const SPACE: Byte := 32
  const DOT: Byte := 46
  const SLASH: Byte := 47
  const BACKSLASH: Byte := 92

  predicate IsDigit(b: Byte) {
    48 <= b <= 57
  }

  /** What may follow an extension inside a file name: version digits and dots. */
  predicate IsVersionByte(b: Byte) {
    IsDigit(b) || b == DOT
  }

  predicate IsSuffix(p: Text, t: Text) {
    |p| <= |t| && t[|t| - |p|..] == p
  }

  predicate OccursAt(p: Text, t: Text, i: nat) {
    i + |p| <= |t| && t[i..i + |p|] == p
  }

  ghost predicate Occurs(p: Text, t: Text) {
    exists i: nat :: OccursAt(p, t, i)
  }

  function Reversed(t: Text): (r: Text)
    ensures |r| == |t|
    ensures forall i | 0 <= i < |t| :: r[i] == t[|t| - 1 - i]
  {
    seq(|t|, i requires 0 <= i < |t| => t[|t| - 1 - i])
  }

  lemma TakeSnoc<T>(t: seq<T>, i: nat)
    requires i < |t|
    ensures t[..i + 1] == t[..i] + [t[i]]
  {
  }

  lemma TakeAll<T>(t: seq<T>)
    ensures t[..|t|] == t
  {
  }

  lemma SuffixesNest(u: Text, v: Text, t: Text)
    requires IsSuffix(u, t) && IsSuffix(v, t) && |u| <= |v|
    ensures IsSuffix(u, v)
  {
    assert t[|t| - |v|..][|v| - |u|..] == t[|t| - |u|..];
  }

  lemma SuffixTransitive(u: Text, v: Text, t: Text)
    requires IsSuffix(u, v) && IsSuffix(v, t)
    ensures IsSuffix(u, t)
  {
    assert t[|t| - |v|..][|v| - |u|..] == t[|t| - |u|..];
  }

  /** An occurrence is a suffix of some prefix. */
  lemma OccursAsPrefixSuffix(p: Text, t: Text, i: nat)
    requires OccursAt(p, t, i)
    ensures IsSuffix(p, t[..i + |p|])
  {
    assert t[..i + |p|][i..] == t[i..i + |p|];
  }

  lemma PrefixSuffixOccurs(p: Text, t: Text, k: nat)
    requires k <= |t| && IsSuffix(p, t[..k])
    ensures OccursAt(p, t, k - |p|)
  {
    assert t[..k][k - |p|..] == t[k - |p|..k];
  }

  lemma OccursPointwise(p: Text, t: Text, i: nat)
    ensures OccursAt(p, t, i) <==> i + |p| <= |t| && forall k | 0 <= k < |p| :: t[i + k] == p[k]
  {
    if OccursAt(p, t, i) {
      forall k | 0 <= k < |p| ensures t[i + k] == p[k] { assert p[k] == t[i..i + |p|][k]; }
    }
  }

  /** Reversing both strings moves an occurrence to the mirrored position. */
  lemma OccursReversed(p: Text, t: Text, i: nat)
    requires OccursAt(p, t, i)
    ensures OccursAt(Reversed(p), Reversed(t), |t| - |p| - i)
  {
    var j := |t| - |p| - i;
    OccursPointwise(p, t, i);
    forall k | 0 <= k < |p|
      ensures Reversed(t)[j + k] == Reversed(p)[k]
    {
      assert t[i + (|p| - 1 - k)] == p[|p| - 1 - k];
    }
    OccursPointwise(Reversed(p), Reversed(t), j);
  }

  lemma ReversedTwice(t: Text)
    ensures Reversed(Reversed(t)) == t
  {
  }
}
