/** The directory order: like byte order, except that the separator comes before every other byte. */
module PathOrder {
  import opened Bytes

  /** `std::mismatch`: how far two strings agree. */
  function Mismatch(a: Text, b: Text): (i: nat)
    ensures i <= |a| && i <= |b| && a[..i] == b[..i]
    ensures i < |a| && i < |b| ==> a[i] != b[i]
  {
    if a == [] || b == [] || a[0] != b[0] then 0
    else
      var i := Mismatch(a[1..], b[1..]);
      assert a[..i + 1] == [a[0]] + a[1..][..i] && b[..i + 1] == [b[0]] + b[1..][..i];
      i + 1
  }

  function DirPathCmp(a: Text, b: Text): int {
    var i := Mismatch(a, b);
    if i == |a| && i == |b| then 0
    else if i == |a| then -1
    else if i == |b| then 1
    else if a[i] == b[i] then 0
    else if a[i] == SLASH then -1
    else if b[i] == SLASH then 1
    else a[i] as int - b[i] as int
  }

  // ---- A total order ------------------------------------------------------------------------------

  /** Where a byte stands in the order; zero is the end of the string. */
  function Rank(a: Text, i: nat): nat {
    if i >= |a| then 0 else if a[i] == SLASH then 1 else a[i] as int + 2
  }

  /** At the first difference, a ranks lower. */
  ghost predicate Before(a: Text, b: Text, i: nat) {
    Rank(a, i) < Rank(b, i) && forall k | 0 <= k < i :: Rank(a, k) == Rank(b, k)
  }

  lemma SameRankSameByte(a: Text, b: Text, k: nat)
    ensures k < |a| && k < |b| ==> (Rank(a, k) == Rank(b, k) <==> a[k] == b[k])
  {
  }

  /** The comparison looks at the ranks, first difference first. */
  lemma CmpByRank(a: Text, b: Text)
    ensures DirPathCmp(a, b) < 0 <==> exists i: nat :: Before(a, b, i)
  {
    var m := Mismatch(a, b);
    forall k | 0 <= k < m ensures Rank(a, k) == Rank(b, k) {
      assert a[..m][k] == b[..m][k];
    }
    if DirPathCmp(a, b) < 0 {
      assert Before(a, b, m);
    }
    if i: nat :| Before(a, b, i) {
      assert i < m ==> Rank(a, i) == Rank(b, i);
      assert i > m ==> Rank(a, m) == Rank(b, m);
    }
  }

  /** After n bytes in common a ends and b goes on, or a has the separator there and b has not, or both have
      other bytes and that of a is smaller. */
  predicate FirstDifference(a: Text, b: Text, n: nat) {
    && n <= |a| && n < |b| && a[..n] == b[..n]
    && (n == |a| || (b[n] != 47 && (a[n] == 47 || a[n] < b[n])))
  }

  /** The comparison in terms of bytes: the separator comes before all others, the end before everything. */
  lemma CmpInBytes(a: Text, b: Text)
    ensures DirPathCmp(a, b) < 0 <==> exists n: nat :: FirstDifference(a, b, n)
  {
    var m := Mismatch(a, b);
    if DirPathCmp(a, b) < 0 {
      assert FirstDifference(a, b, m);
    }
    if n: nat :| FirstDifference(a, b, n) {
      DifferenceIsMismatch(a, b, n);
    }
  }

  lemma {:induction false} DifferenceIsMismatch(a: Text, b: Text, n: nat)
    requires FirstDifference(a, b, n)
    ensures Mismatch(a, b) == n
  {
    if n > 0 {
      assert a[0] == a[..n][0] == b[..n][0] == b[0];
      assert a[1..][..n - 1] == a[..n][1..] && b[1..][..n - 1] == b[..n][1..];
      DifferenceIsMismatch(a[1..], b[1..], n - 1);
    }
  }

  /** Zero means equal, and swapping the arguments swaps the sign. */
  lemma CmpIsAntisymmetric(a: Text, b: Text)
    ensures DirPathCmp(a, b) == 0 <==> a == b
    ensures DirPathCmp(a, b) < 0 <==> DirPathCmp(b, a) > 0
  {
    MismatchSwaps(a, b);
    var m := Mismatch(a, b);
    if m == |a| && m == |b| {
      assert a == a[..m] && b == b[..m];
    }
  }

  lemma {:induction false} MismatchSwaps(a: Text, b: Text)
    ensures Mismatch(a, b) == Mismatch(b, a)
  {
    if a != [] && b != [] && a[0] == b[0] {
      MismatchSwaps(a[1..], b[1..]);
    }
  }

  lemma CmpIsTransitive(a: Text, b: Text, c: Text)
    requires DirPathCmp(a, b) < 0 && DirPathCmp(b, c) < 0
    ensures DirPathCmp(a, c) < 0
  {
    CmpByRank(a, b);
    CmpByRank(b, c);
    CmpByRank(a, c);
    var i: nat :| Before(a, b, i);
    var j: nat :| Before(b, c, j);
    assert Before(a, c, if i < j then i else j);
  }

  /** What the library sort demands of the comparator it is given: irreflexive, transitive, and
      incomparable elements interchangeable. */
  lemma ComparatorIsStrictWeakOrder(a: Text, b: Text, c: Text)
    ensures !(DirPathCmp(a, a) < 0)
    ensures DirPathCmp(a, b) < 0 && DirPathCmp(b, c) < 0 ==> DirPathCmp(a, c) < 0
    ensures !(DirPathCmp(a, b) < 0) && !(DirPathCmp(b, a) < 0) ==> a == b
  {
    CmpIsAntisymmetric(a, a);
    CmpIsAntisymmetric(a, b);
    if DirPathCmp(a, b) < 0 && DirPathCmp(b, c) < 0 {
      CmpIsTransitive(a, b, c);
    }
  }

  // ---- Sorting ------------------------------------------------------------------------------------

  ghost predicate Sorted(list: seq<Text>) {
    forall i, j | 0 <= i < j < |list| :: DirPathCmp(list[i], list[j]) <= 0
  }

  lemma AtMostTransitive(a: Text, b: Text, c: Text)
    requires DirPathCmp(a, b) <= 0 && DirPathCmp(b, c) <= 0
    ensures DirPathCmp(a, c) <= 0
  {
    CmpIsAntisymmetric(a, b);
    CmpIsAntisymmetric(b, c);
    if DirPathCmp(a, b) < 0 && DirPathCmp(b, c) < 0 {
      CmpIsTransitive(a, b, c);
    }
  }

  function InsertPath(list: seq<Text>, x: Text): (r: seq<Text>)
    requires Sorted(list)
    ensures Sorted(r) && multiset(r) == multiset(list) + multiset{x}
  {
    if list == [] then [x]
    else if DirPathCmp(x, list[0]) <= 0 then
      PutInFront(list, x);
      [x] + list
    else
      var rest := InsertPath(list[1..], x);
      PutBack(list, x, rest);
      [list[0]] + rest
  }

  lemma PutInFront(list: seq<Text>, x: Text)
    requires Sorted(list) && list != [] && DirPathCmp(x, list[0]) <= 0
    ensures Sorted([x] + list)
  {
    hide DirPathCmp;
    forall k | 0 <= k < |list| ensures DirPathCmp(x, list[k]) <= 0 {
      if k > 0 { AtMostTransitive(x, list[0], list[k]); }
    }
  }

  lemma PutBack(list: seq<Text>, x: Text, rest: seq<Text>)
    requires Sorted(list) && list != [] && DirPathCmp(x, list[0]) > 0
    requires Sorted(rest) && multiset(rest) == multiset(list[1..]) + multiset{x}
    ensures Sorted([list[0]] + rest) && multiset([list[0]] + rest) == multiset(list) + multiset{x}
  {
    hide DirPathCmp;
    CmpIsAntisymmetric(list[0], x);
    assert list == [list[0]] + list[1..];
    forall k | 0 <= k < |rest| ensures DirPathCmp(list[0], rest[k]) <= 0 {
      assert rest[k] in multiset(rest);
      assert rest[k] in list[1..] || rest[k] == x;
    }
  }

  /** The library sort, as any sort: see SortedIsUnique. */
  function DirPathSort(list: seq<Text>): (r: seq<Text>)
    ensures Sorted(r) && multiset(r) == multiset(list)
  {
    if list == [] then []
    else
      assert list == list[..|list| - 1] + [list[|list| - 1]];
      InsertPath(DirPathSort(list[..|list| - 1]), list[|list| - 1])
  }

  method StringListDirPathSort(list: array<Text>)
    modifies list
    ensures Sorted(list[..]) && multiset(list[..]) == multiset(old(list[..]))
  {
    hide Sorted;
    var sorted := DirPathSort(list[..]);
    assert |multiset(sorted)| == |multiset(list[..])|;
    forall i | 0 <= i < list.Length {
      list[i] := sorted[i];
    }
    assert list[..] == sorted;
  }

  /** A list can be sorted in one way only, so it does not matter how the library does it. */
  lemma {:induction false} SortedIsUnique(a: seq<Text>, b: seq<Text>)
    requires Sorted(a) && Sorted(b) && multiset(a) == multiset(b)
    ensures a == b
  {
    hide DirPathCmp;
    SameMembers(a, b);
    if a != [] {
      LeastFirst(a, b[0]);
      LeastFirst(b, a[0]);
      CmpIsAntisymmetric(a[0], b[0]);
      SameTails(a, b);
      assert a == [a[0]] + a[1..] && b == [b[0]] + b[1..];
      SortedIsUnique(a[1..], b[1..]);
    }
  }

  lemma SameMembers(a: seq<Text>, b: seq<Text>)
    requires multiset(a) == multiset(b)
    ensures |a| == |b| && forall x :: x in a <==> x in b
  {
    assert |multiset(a)| == |multiset(b)|;
    forall x ensures x in a <==> x in b {
      assert x in a <==> x in multiset(a);
    }
  }

  lemma SameTails(a: seq<Text>, b: seq<Text>)
    requires multiset(a) == multiset(b) && a != [] && b != [] && a[0] == b[0]
    ensures multiset(a[1..]) == multiset(b[1..])
  {
    assert a == [a[0]] + a[1..] && b == [b[0]] + b[1..];
    assert multiset(a[1..]) == multiset(a) - multiset{a[0]};
  }

  lemma LeastFirst(a: seq<Text>, x: Text)
    requires Sorted(a) && a != [] && x in a
    ensures DirPathCmp(a[0], x) <= 0
  {
    CmpIsAntisymmetric(x, x);
  }

  // ---- Directories and what is below them -----------------------------------------------------------

  predicate Below(path: Text, directory: Text) {
    directory + [SLASH] <= path
  }

  lemma BelowInBytes(path: Text, directory: Text)
    ensures Below(path, directory) <==>
      |path| > |directory| && path[..|directory|] == directory && path[|directory|] == 47
  {
    var n := |directory|;
    if |path| > n && path[..n] == directory && path[n] == 47 {
      assert path[..n + 1] == directory + [SLASH];
    }
    if Below(path, directory) {
      assert path[..n] == (directory + [SLASH])[..n];
    }
  }

  lemma BelowRanks(path: Text, directory: Text, k: nat)
    requires Below(path, directory)
    ensures k < |directory| ==> Rank(path, k) == Rank(directory, k)
    ensures k == |directory| ==> Rank(path, k) == 1
  {
    assert k <= |directory| ==> path[k] == (directory + [SLASH])[k];
  }

  /** What is below a directory comes after it. */
  lemma BelowIsLater(path: Text, directory: Text)
    requires Below(path, directory)
    ensures DirPathCmp(directory, path) < 0
  {
    forall k: nat ensures k < |directory| ==> Rank(path, k) == Rank(directory, k) { BelowRanks(path, directory, k); }
    BelowRanks(path, directory, |directory|);
    assert Before(directory, path, |directory|);
    CmpByRank(directory, path);
  }

  lemma EndStays(x: Text, n: nat, k: nat)
    ensures n <= k && Rank(x, n) == 0 ==> Rank(x, k) == 0
  {
  }

  /** Nothing else comes between a directory and what is below it: "a/z" is less than "a.b". */
  lemma NothingBetween(directory: Text, x: Text, path: Text)
    requires DirPathCmp(directory, x) < 0 && DirPathCmp(x, path) < 0 && Below(path, directory)
    ensures Below(x, directory)
  {
    CmpByRank(directory, x);
    CmpByRank(x, path);
    var n := |directory|;
    var i: nat :| Before(directory, x, i);
    var j: nat :| Before(x, path, j);
    forall k: nat
      ensures k < n ==> Rank(path, k) == Rank(directory, k)
      ensures k == n ==> Rank(path, k) == 1
    {
      BelowRanks(path, directory, k);
    }
    assert i >= n && j >= n;
    EndStays(x, n, i);
    assert i == n;
    forall k | 0 <= k < n ensures k < |x| && x[k] == directory[k] {
      assert Rank(x, k) == Rank(directory, k);
      SameRankSameByte(x, directory, k);
    }
    assert x[..n + 1] == directory + [SLASH];
  }

  /** In a sorted list, everything below a directory stands directly behind the directory. */
  lemma SubtreesAreContiguous(list: seq<Text>, directory: Text, i: nat, j: nat, k: nat)
    requires Sorted(list) && i < |list| && k < |list| && list[i] == directory && Below(list[k], directory)
    ensures i < k
    ensures i < j < k ==> list[j] == directory || Below(list[j], directory)
  {
    hide DirPathCmp;
    BelowIsLater(list[k], directory);
    CmpIsAntisymmetric(list[k], directory);
    if i < j < k {
      CmpIsAntisymmetric(directory, list[j]);
      CmpIsAntisymmetric(list[j], list[k]);
      if list[j] != directory && list[j] != list[k] {
        NothingBetween(directory, list[j], list[k]);
      }
    }
  }
}
