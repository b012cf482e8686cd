/** Lists in general: what they yield element by element, which elements are picked, and which come first. */
module Sequences {

  ghost predicate Increasing(s: seq<nat>) {
    forall i, j | 0 <= i < j < |s| :: s[i] < s[j]
  }

  // ---- What a list yields, element by element ------------------------------------------------

  function Gather<A, B>(f: A -> seq<B>, s: seq<A>): seq<B> {
    if s == [] then [] else Gather(f, s[..|s| - 1]) + f(s[|s| - 1])
  }

  lemma GatherNothing<A, B>(f: A -> seq<B>)
    ensures Gather(f, []) == []
  {
  }

  lemma GatherSnoc<A, B>(f: A -> seq<B>, s: seq<A>, x: A)
    ensures Gather(f, s + [x]) == Gather(f, s) + f(x)
  {
    assert (s + [x])[..|s|] == s;
  }

  lemma {:induction false} GatherAppend<A, B>(f: A -> seq<B>, a: seq<A>, b: seq<A>)
    ensures Gather(f, a + b) == Gather(f, a) + Gather(f, b)
  {
    hide Gather;
    if b == [] {
      GatherNothing(f);
      assert a + b == a;
    } else {
      var b', x := b[..|b| - 1], b[|b| - 1];
      GatherAppend(f, a, b');
      assert a + b == (a + b') + [x] && b == b' + [x];
      GatherSnoc(f, a + b', x);
      GatherSnoc(f, b', x);
      assert Gather(f, a) + (Gather(f, b') + f(x)) == Gather(f, a) + Gather(f, b') + f(x);
    }
  }

  lemma {:induction false} GatherAlike<A, B>(f: A -> seq<B>, g: A -> seq<B>, s: seq<A>)
    requires forall x :: f(x) == g(x)
    ensures Gather(f, s) == Gather(g, s)
  {
    if s != [] {
      GatherAlike(f, g, s[..|s| - 1]);
    }
  }

  function Without<A>(s: seq<A>, k: nat): seq<A>
    requires k < |s|
  {
    s[..k] + s[k + 1..]
  }

  lemma TakenOut<A>(s: seq<A>, k: nat)
    requires k < |s|
    ensures multiset(s) == multiset(Without(s, k)) + multiset{s[k]}
  {
    assert s == s[..k] + [s[k]] + s[k + 1..];
  }

  lemma GatherWithout<A, B>(f: A -> seq<B>, s: seq<A>, k: nat)
    requires k < |s|
    ensures multiset(Gather(f, s)) == multiset(Gather(f, Without(s, k))) + multiset(f(s[k]))
  {
    hide Gather;
    var before, behind := s[..k], s[k + 1..];
    assert s == before + [s[k]] + behind;
    GatherSnoc(f, before, s[k]);
    GatherAppend(f, before + [s[k]], behind);
    GatherAppend(f, before, behind);
  }

  /** The order of the elements does not matter for what they yield in all. */
  lemma {:induction false} GatherPermuted<A, B>(f: A -> seq<B>, s: seq<A>, t: seq<A>)
    requires multiset(s) == multiset(t)
    ensures multiset(Gather(f, s)) == multiset(Gather(f, t))
    decreases |s|
  {
    hide Gather, Without;
    if s == [] {
      assert |t| == |multiset(t)| == 0;
    } else {
      var n := |s| - 1;
      assert s[n] in multiset(t);
      var k :| 0 <= k < |t| && t[k] == s[n];
      TakenOut(s, n);
      TakenOut(t, k);
      assert |Without(s, n)| < |s| by { assert |multiset(s)| == |multiset(Without(s, n))| + 1; }
      assert multiset(Without(s, n)) == multiset(s) - multiset{s[n]} == multiset(Without(t, k));
      GatherPermuted(f, Without(s, n), Without(t, k));
      GatherWithout(f, s, n);
      GatherWithout(f, t, k);
    }
  }

  ghost predicate Yields<A, B>(f: A -> seq<B>, s: seq<A>, i: nat) {
    i < |s| && f(s[i]) != []
  }

  ghost predicate YieldsJust<A, B>(f: A -> seq<B>, s: seq<A>, i: nat, y: B) {
    i < |s| && f(s[i]) == [y]
  }

  /** The result has one element for every position that yields something, in order. */
  ghost predicate Picks<A, B>(f: A -> seq<B>, s: seq<A>, at: seq<nat>) {
    && Increasing(at) && |at| == |Gather(f, s)|
    && (forall i: nat :: i in at <==> Yields(f, s, i))
    && (forall k | 0 <= k < |at| :: YieldsJust(f, s, at[k], Gather(f, s)[k]))
  }

  lemma YieldsOneMore<A, B>(f: A -> seq<B>, s: seq<A>, x: A, i: nat)
    ensures Yields(f, s + [x], i) <==> Yields(f, s, i) || (i == |s| && f(x) != [])
    ensures Yields(f, s, i) ==> i < |s|
  {
  }

  lemma YieldsJustOneMore<A, B>(f: A -> seq<B>, s: seq<A>, x: A, i: nat, y: B)
    ensures YieldsJust(f, s, i, y) ==> YieldsJust(f, s + [x], i, y)
    ensures i == |s| && f(x) == [y] ==> YieldsJust(f, s + [x], i, y)
  {
  }

  lemma PickOneMore<A, B>(f: A -> seq<B>, s: seq<A>, x: A, at: seq<nat>)
    requires |f(x)| <= 1 && Picks(f, s, at)
    ensures Picks(f, s + [x], if f(x) == [] then at else at + [|s|])
  {
    hide Gather, Yields, YieldsJust;
    GatherSnoc(f, s, x);
    var at' := if f(x) == [] then at else at + [|s|];
    assert f(x) != [] ==> f(x) == [f(x)[0]];
    forall i: nat ensures i in at' <==> Yields(f, s + [x], i) {
      YieldsOneMore(f, s, x, i);
      assert i in at' <==> i in at || (f(x) != [] && i == |s|);
    }
    forall k | 0 <= k < |at'| ensures YieldsJust(f, s + [x], at'[k], Gather(f, s + [x])[k]) {
      var y := Gather(f, s + [x])[k];
      assert k < |at| ==> y == Gather(f, s)[k];
      YieldsJustOneMore(f, s, x, at'[k], y);
    }
    forall k | 0 <= k < |at| ensures at[k] < |s| {
      assert at[k] in at;
      YieldsOneMore(f, s, x, at[k]);
    }
  }

  /** Where every element yields at most one thing, the result picks the positions that yield one, in order. */
  lemma {:induction false} GatherPicks<A, B>(f: A -> seq<B>, s: seq<A>) returns (at: seq<nat>)
    requires forall i | 0 <= i < |s| :: |f(s[i])| <= 1
    ensures Picks(f, s, at)
  {
    at := [];
    if s != [] {
      var n := |s| - 1;
      var rest, x := s[..n], s[n];
      assert s == rest + [x];
      at := GatherPicks(f, rest);
      PickOneMore(f, rest, x, at);
      if f(x) != [] {
        at := at + [n];
      }
    }
  }

  // ---- Each element once ------------------------------------------------------------------------

  /** The elements of a list, each once, in order of first appearance. */
  function Firsts<T(==)>(s: seq<T>): (r: seq<T>)
    ensures |r| <= |s|
  {
    if s == [] then []
    else
      var r, x := Firsts(s[..|s| - 1]), s[|s| - 1];
      if x in r then r else r + [x]
  }

  /** Position i is the first that holds x. */
  ghost predicate FirstAt<T>(s: seq<T>, x: T, i: nat) {
    i < |s| && s[i] == x && x !in s[..i]
  }

  lemma StillFirst<T>(s: seq<T>, x: T, y: T, i: nat)
    requires FirstAt(s, x, i)
    ensures FirstAt(s + [y], x, i)
  {
    assert (s + [y])[..i] == s[..i];
  }

  /** The a-th element of the result stands first at position at[a]; nothing is missing. */
  lemma {:induction false} FirstsInOrder<T>(s: seq<T>) returns (at: seq<nat>)
    ensures |at| == |Firsts(s)| && Increasing(at)
    ensures forall a | 0 <= a < |at| :: FirstAt(s, Firsts(s)[a], at[a])
    ensures forall x :: x in s <==> x in Firsts(s)
  {
    hide FirstAt;
    at := [];
    if s != [] {
      var n := |s| - 1;
      var rest, x := s[..n], s[n];
      assert s == rest + [x];
      at := FirstsInOrder(rest);
      forall a | 0 <= a < |at| ensures FirstAt(s, Firsts(rest)[a], at[a]) && at[a] < n {
        FirstsInside(rest, Firsts(rest)[a], at[a]);
        StillFirst(rest, Firsts(rest)[a], x, at[a]);
      }
      if x !in Firsts(rest) {
        NewIsFirst(rest, x);
        at := at + [n];
      }
    }
  }

  lemma FirstsInside<T>(s: seq<T>, x: T, i: nat)
    requires FirstAt(s, x, i)
    ensures i < |s|
  {
  }

  lemma NewIsFirst<T>(s: seq<T>, x: T)
    requires x !in s
    ensures FirstAt(s + [x], x, |s|)
  {
    assert (s + [x])[..|s|] == s;
  }
}
