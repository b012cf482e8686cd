/** Finite sets: members of sequences, indices, sizes. */
module FiniteSets {

  ghost function Members<T>(s: seq<T>): set<T> {
    set x | x in s
  }

  ghost function Indices(n: nat): (r: set<nat>)
    ensures |r| == n && forall i: nat :: i in r <==> i < n
  {
    if n == 0 then {} else Indices(n - 1) + {n - 1}
  }

  lemma SubsetSize<T>(a: set<T>, b: set<T>)
    ensures a <= b ==> |a| <= |b|
    ensures a <= b && |a| == |b| ==> a == b
  {
    if a <= b {
      assert b == a + (b - a);
      assert |b| == |a| + |b - a|;
    }
  }

  lemma {:induction false} MembersAreFew<T>(s: seq<T>)
    ensures |Members(s)| <= |s|
  {
    if s != [] {
      var rest, last := s[..|s| - 1], s[|s| - 1];
      MembersAreFew(rest);
      assert s == rest + [last];
      assert Members(s) == Members(rest) + {last};
    }
  }

  lemma {:induction false} DistinctMembers<T>(s: seq<T>)
    requires forall i, j | 0 <= i < j < |s| :: s[i] != s[j]
    ensures |Members(s)| == |s|
  {
    if s != [] {
      var rest, last := s[..|s| - 1], s[|s| - 1];
      DistinctMembers(rest);
      assert s == rest + [last];
      assert last !in rest;
      assert Members(s) == Members(rest) + {last};
    }
  }

  ghost function PairsFrom<A, B>(a: A, bs: set<B>): set<(A, B)> {
    set b | b in bs :: (a, b)
  }

  ghost function PairsTo<A, B>(xs: set<A>, b: B): set<(A, B)> {
    set a | a in xs :: (a, b)
  }

  lemma {:induction false} PairsFromSize<A, B>(a: A, bs: set<B>)
    ensures |PairsFrom(a, bs)| == |bs|
  {
    if b :| b in bs {
      PairsFromSize(a, bs - {b});
      assert PairsFrom(a, bs) == PairsFrom(a, bs - {b}) + {(a, b)};
    } else {
      assert PairsFrom(a, bs) == {};
    }
  }

  lemma {:induction false} PairsToSize<A, B>(xs: set<A>, b: B)
    ensures |PairsTo(xs, b)| == |xs|
  {
    if a :| a in xs {
      PairsToSize(xs - {a}, b);
      assert PairsTo(xs, b) == PairsTo(xs - {a}, b) + {(a, b)};
    } else {
      assert PairsTo(xs, b) == {};
    }
  }
}
