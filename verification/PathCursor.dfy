/** Looking paths up in a sorted list with a cursor that is kept from one question to the next. */
module PathCursor {
  import opened Bytes
  import opened PathOrder

  /** The first position from idx on that holds the path, or the end of the list. */
  function Seek(list: seq<Text>, idx: nat, path: Text): (r: nat)
    requires idx <= |list|
    ensures idx <= r <= |list| && (r < |list| ==> list[r] == path) && path !in list[idx..r]
    decreases |list| - idx
  {
    if idx == |list| || list[idx] == path then idx else Seek(list, idx + 1, path)
  }

  /** Where the cursor stands after a question that was answered at this position. */
  function After(list: seq<Text>, at: nat): nat {
    if at < |list| then at + 1 else at
  }

  /** A hit moves the cursor behind the path, a miss to the end of the list. */
  method StringListContainsDirPath(list: seq<Text>, idx: nat, path: Text) returns (found: bool, idx': nat)
    ensures idx <= |list| ==> found == (path in list[idx..]) && idx' == After(list, Seek(list, idx, path))
    ensures idx > |list| ==> !found && idx' == idx
    ensures found ==> idx < idx' <= |list| && list[idx' - 1] == path && path !in list[idx..idx' - 1]
    ensures !found && idx <= |list| ==> idx' == |list| && path !in list[idx..]
  {
    idx' := idx;
    while idx' < |list| && DirPathCmp(list[idx'], path) != 0
      invariant idx > |list| ==> idx' == idx
      invariant idx <= |list| ==> idx <= idx' <= |list| && Seek(list, idx, path) == Seek(list, idx', path)
      decreases |list| - idx'
    {
      CmpIsAntisymmetric(list[idx'], path);
      idx' := idx' + 1;
    }
    if idx <= |list| {
      SeekFinds(list, idx, path);
    }
    if idx' < |list| {
      CmpIsAntisymmetric(list[idx'], path);
      idx' := idx' + 1;
      return true, idx';
    }
    return false, idx';
  }

  lemma SeekFinds(list: seq<Text>, idx: nat, path: Text)
    requires idx <= |list|
    ensures Seek(list, idx, path) < |list| <==> path in list[idx..]
  {
    var at := Seek(list, idx, path);
    assert at < |list| ==> list[idx..][at - idx] == path;
    assert list[idx..at] == list[idx..][..at - idx];
  }

  // ---- A run of questions ---------------------------------------------------------------------------

  /** The answers to a run of questions with one cursor. */
  function Answers(list: seq<Text>, idx: nat, queries: seq<Text>): (r: seq<bool>)
    requires idx <= |list|
    ensures |r| == |queries|
    decreases |queries|
  {
    if queries == [] then []
    else
      var at := Seek(list, idx, queries[0]);
      [at < |list|] + Answers(list, After(list, at), queries[1..])
  }

  function Truth(list: seq<Text>, queries: seq<Text>): (r: seq<bool>)
    ensures |r| == |queries|
  {
    seq(|queries|, k requires 0 <= k < |queries| => queries[k] in list)
  }

  ghost predicate Ascending(queries: seq<Text>) {
    forall i, j | 0 <= i < j < |queries| :: DirPathCmp(queries[i], queries[j]) < 0
  }

  /** No listed path is asked for after one that is not listed. */
  ghost predicate NoHitAfterMiss(list: seq<Text>, queries: seq<Text>) {
    forall i, j | 0 <= i < j < |queries| && queries[i] !in list :: queries[j] !in list
  }

  lemma {:induction false} AtTheEnd(list: seq<Text>, queries: seq<Text>)
    ensures Answers(list, |list|, queries) == seq(|queries|, k => false)
  {
    if queries != [] {
      AtTheEnd(list, queries[1..]);
    }
  }

  /** Everything before the cursor comes before all that will be asked. */
  ghost predicate Passed(list: seq<Text>, idx: nat, queries: seq<Text>) {
    idx <= |list| && forall k, j | 0 <= k < idx && 0 <= j < |queries| :: DirPathCmp(list[k], queries[j]) < 0
  }

  lemma PassedIsNotAsked(list: seq<Text>, idx: nat, queries: seq<Text>, j: nat)
    requires Passed(list, idx, queries) && j < |queries|
    ensures idx <= |list|
    ensures queries[j] in list <==> queries[j] in list[idx..]
  {
    if queries[j] in list {
      var k :| 0 <= k < |list| && list[k] == queries[j];
      CmpIsAntisymmetric(list[k], queries[j]);
      assert list[k] == list[idx..][k - idx];
    }
  }

  lemma HitPasses(list: seq<Text>, idx: nat, queries: seq<Text>)
    requires Sorted(list) && queries != [] && Ascending(queries) && Passed(list, idx, queries)
    requires Seek(list, idx, queries[0]) < |list|
    ensures Passed(list, Seek(list, idx, queries[0]) + 1, queries[1..])
  {
    var at := Seek(list, idx, queries[0]);
    forall k, j | 0 <= k < at + 1 && 0 <= j < |queries[1..]| ensures DirPathCmp(list[k], queries[1..][j]) < 0 {
      assert DirPathCmp(queries[0], queries[j + 1]) < 0;
      if k < at {
        assert DirPathCmp(list[k], list[at]) <= 0;
        CmpIsAntisymmetric(list[k], list[at]);
        CmpIsTransitive(list[k], list[at], queries[j + 1]);
      }
    }
  }

  lemma HitFirst(list: seq<Text>, query: Text, rest: seq<Text>)
    requires query in list
    ensures NoHitAfterMiss(list, [query] + rest) <==> NoHitAfterMiss(list, rest)
  {
    var all := [query] + rest;
    assert forall k | 0 < k < |all| :: all[k] == rest[k - 1];
    forall i, j | 0 <= i < j < |rest| && rest[i] !in list && NoHitAfterMiss(list, all) ensures rest[j] !in list {
      assert all[i + 1] == rest[i] && all[j + 1] == rest[j];
    }
  }

  lemma MissFirst(list: seq<Text>, query: Text, rest: seq<Text>)
    requires query !in list
    ensures NoHitAfterMiss(list, [query] + rest) <==> Truth(list, rest) == seq(|rest|, k => false)
  {
    var all := [query] + rest;
    assert forall k | 0 < k < |all| :: all[k] == rest[k - 1];
    if NoHitAfterMiss(list, all) {
      forall j | 0 <= j < |rest| ensures Truth(list, rest)[j] == false {
        assert all[0] !in list && all[j + 1] == rest[j];
      }
    } else {
      var i, j :| 0 <= i < j < |all| && all[i] !in list && all[j] in list;
      assert Truth(list, rest)[j - 1] == true;
    }
  }

  lemma TruthOfOneMore(list: seq<Text>, queries: seq<Text>)
    requires queries != []
    ensures Truth(list, queries) == [queries[0] in list] + Truth(list, queries[1..])
  {
  }

  lemma OneMoreAnswer(list: seq<Text>, idx: nat, queries: seq<Text>)
    requires idx <= |list| && queries != []
    ensures var at := Seek(list, idx, queries[0]);
      Answers(list, idx, queries) == [at < |list|] + Answers(list, After(list, at), queries[1..])
  {
    hide Seek;
  }

  lemma SameFirst<T>(x: T, a: seq<T>, b: seq<T>)
    ensures [x] + a == [x] + b <==> a == b
  {
    assert ([x] + a)[1..] == a && ([x] + b)[1..] == b;
  }

  lemma {:induction false} CursorFrom(list: seq<Text>, idx: nat, queries: seq<Text>)
    requires idx <= |list| && Sorted(list) && Ascending(queries) && Passed(list, idx, queries)
    ensures Answers(list, idx, queries) == Truth(list, queries) <==> NoHitAfterMiss(list, queries)
    decreases |queries|
  {
    hide Seek, Truth, Answers, Passed, NoHitAfterMiss, Sorted;
    if queries == [] {
      NothingAsked(list, idx);
    } else {
      PassedIsNotAsked(list, idx, queries, 0);
      var at, rest := Seek(list, idx, queries[0]), queries[1..];
      SeekFinds(list, idx, queries[0]);
      OneMoreAnswer(list, idx, queries);
      TruthOfOneMore(list, queries);
      assert queries == [queries[0]] + rest;
      if at < |list| {
        HitPasses(list, idx, queries);
        CursorFrom(list, at + 1, rest);
        HitFirst(list, queries[0], rest);
        SameFirst(true, Answers(list, at + 1, rest), Truth(list, rest));
      } else {
        AtTheEnd(list, rest);
        MissFirst(list, queries[0], rest);
        SameFirst(false, Answers(list, |list|, rest), Truth(list, rest));
      }
    }
  }

  lemma NothingAsked(list: seq<Text>, idx: nat)
    requires idx <= |list|
    ensures Answers(list, idx, []) == Truth(list, []) && NoHitAfterMiss(list, [])
  {
  }

  /** The documented use: a sorted list, questions in increasing order, a cursor that starts in front.  The
      answers are right exactly when no listed path is asked for after one that is not listed. */
  lemma CursorIsRightIffNoHitAfterMiss(list: seq<Text>, queries: seq<Text>)
    requires Sorted(list) && Ascending(queries)
    ensures Answers(list, 0, queries) == Truth(list, queries) <==> NoHitAfterMiss(list, queries)
  {
    CursorFrom(list, 0, queries);
  }
}
