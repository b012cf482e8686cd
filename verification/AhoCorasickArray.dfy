/** The automaton over 256-way arrays that `build` completes into a DFA, and its right-to-left user. */
module ArrayAutomaton {
  import opened Bytes
  import opened FiniteSets
  import opened SuffixTheory
  import opened TrieIndex
  import opened AutomatonStates

  type ArrayState = State<seq<int>>

  const NO_STATE := -1

  /** `next.fill(-1)` */
  function Blank(n: nat): (r: seq<int>)
    ensures |r| == n && forall i | 0 <= i < n :: r[i] == NO_STATE
  {
    if n == 0 then [] else Blank(n - 1) + [NO_STATE]
  }

  const EMPTY_STATE: ArrayState := State(Blank(256), 0, false, false)

  ghost function Entry(w: Text, ix: Index, filled: int, c: Byte): int
    requires Indexed(ix)
  {
    if w + [c] in ix.ids then ix.ids[w + [c]]
    else if c < filled then ix.ids[Longest(ix.ids.Keys, w + [c])]
    else NO_STATE
  }

  /** The transition row of the state labelled w when its first `filled` entries are complete: an
      entry with a child always names the child, a complete one without names the longest suffix. */
  ghost predicate Row(next: seq<int>, w: Text, ix: Index, filled: int)
    requires Indexed(ix)
  {
    |next| == 256 && forall c: Byte :: next[c] == Entry(w, ix, filled, c)
  }

  ghost function Filled(D: set<nat>, cur: nat, k: int, s: nat): int {
    if s in D then 256 else if s == cur then k else 0
  }

  /** Rows of the states in D are complete, that of cur up to k, and all others are plain trie nodes. */
  ghost predicate Rows(trie: seq<ArrayState>, ix: Index, D: set<nat>, cur: nat, k: int)
    requires Indexed(ix)
  {
    && |trie| == |ix.labels|
    && forall s {:trigger trie[s]} | 0 <= s < |trie| ::
         Row(trie[s].next, ix.labels[s], ix, Filled(D, cur, k, s))
  }

  ghost predicate Trie(trie: seq<ArrayState>, ix: Index) {
    Indexed(ix) && Rows(trie, ix, {}, 0, 0)
  }

  /** A row of a deterministic automaton: every entry is the longest suffix in the trie. */
  ghost predicate FullRow(next: seq<int>, w: Text, ix: Index)
    requires Indexed(ix)
  {
    |next| == 256 && forall c: Byte :: next[c] == ix.ids[Longest(ix.ids.Keys, w + [c])]
  }

  ghost predicate Complete(trie: seq<ArrayState>, ix: Index) {
    && Indexed(ix)
    && |trie| == |ix.labels|
    && forall s {:trigger trie[s]} | 0 <= s < |trie| :: FullRow(trie[s].next, ix.labels[s], ix)
  }

  lemma OldRow(next: seq<int>, v: Text, ix: Index, u: Text, c: Byte)
    requires Indexed(ix) && Row(next, v, ix, 0) && Indexed(WithLabel(ix, u + [c]))
    ensures Row(if v == u then next[c := |ix.labels|] else next, v, WithLabel(ix, u + [c]), 0)
  {
    forall b: Byte ensures v + [b] == u + [c] <==> v == u && b == c { SnocInjective(v, b, u, c); }
  }

  function WithChild(trie: seq<ArrayState>, s: nat, c: Byte): seq<ArrayState>
    requires s < |trie| && |trie[s].next| == 256
  {
    trie[s := trie[s].(next := trie[s].next[c := |trie|])] + [EMPTY_STATE]
  }

  lemma GrowTrie(trie: seq<ArrayState>, ix: Index, s: nat, c: Byte)
    requires Trie(trie, ix) && s < |trie| && |trie[s].next| == 256 && trie[s].next[c] == NO_STATE
    ensures ix.labels[s] + [c] !in ix.ids
    ensures Trie(WithChild(trie, s, c), WithLabel(ix, ix.labels[s] + [c]))
  {
    var w := ix.labels[s] + [c];
    var trie' := WithChild(trie, s, c);
    var ix' := WithLabel(ix, w);
    assert Row(trie[s].next, ix.labels[s], ix, 0);
    AddChild(ix, s, c);
    forall t | 0 <= t < |trie'| ensures Row(trie'[t].next, ix'.labels[t], ix', 0) {
      if t == |trie| {
        forall b: Byte ensures w + [b] !in ix'.ids {
          NoGrandchildren(ix, w, b);
        }
      } else {
        OldRow(trie[t].next, ix.labels[t], ix, ix.labels[s], c);
      }
    }
  }

  /** Failure links and flags may change freely: the tree is in the transitions. */
  lemma TransitionsKept(trie: seq<ArrayState>, ix: Index, D: set<nat>, cur: nat, k: int, s: nat, st: ArrayState)
    requires Indexed(ix) && Rows(trie, ix, D, cur, k) && s < |trie| && st.next == trie[s].next
    ensures Rows(trie[s := st], ix, D, cur, k)
  {
  }

  /** Entry k of the row of cur needs no change when there is a child, ... */
  lemma KeepEntry(trie: seq<ArrayState>, ix: Index, D: set<nat>, cur: nat, k: Byte)
    requires Indexed(ix) && Rows(trie, ix, D, cur, k) && cur < |trie| && ix.labels[cur] + [k] in ix.ids
    ensures Rows(trie, ix, D, cur, k + 1)
  {
    forall s | 0 <= s < |trie|
      ensures Row(trie[s].next, ix.labels[s], ix, Filled(D, cur, k + 1, s))
    {
      assert Row(trie[s].next, ix.labels[s], ix, Filled(D, cur, k, s));
    }
  }

  /** ... and otherwise is set to the longest suffix. */
  lemma FillEntry(trie: seq<ArrayState>, ix: Index, D: set<nat>, cur: nat, k: Byte, t: nat)
    requires Indexed(ix) && Rows(trie, ix, D, cur, k) && cur < |trie| && cur !in D && |trie[cur].next| == 256
    requires ix.labels[cur] + [k] !in ix.ids && t == ix.ids[Longest(ix.ids.Keys, ix.labels[cur] + [k])]
    ensures Rows(trie[cur := trie[cur].(next := trie[cur].next[k := t])], ix, D, cur, k + 1)
  {
    var trie' := trie[cur := trie[cur].(next := trie[cur].next[k := t])];
    forall s | 0 <= s < |trie'|
      ensures Row(trie'[s].next, ix.labels[s], ix, Filled(D, cur, k + 1, s))
    {
      assert Row(trie[s].next, ix.labels[s], ix, Filled(D, cur, k, s));
    }
  }

  lemma NextRow(trie: seq<ArrayState>, ix: Index, D: set<nat>, cur: nat, next: nat)
    requires Indexed(ix) && Rows(trie, ix, D, cur, 256)
    ensures Rows(trie, ix, D + {cur}, next, 0)
  {
    forall s | 0 <= s < |trie|
      ensures Row(trie[s].next, ix.labels[s], ix, Filled(D + {cur}, next, 0, s))
    {
      assert Row(trie[s].next, ix.labels[s], ix, Filled(D, cur, 256, s));
    }
  }

  lemma SwitchRow(trie: seq<ArrayState>, ix: Index, D: set<nat>, cur: nat, next: nat)
    requires Indexed(ix) && Rows(trie, ix, D, cur, 0)
    ensures Rows(trie, ix, D, next, 0)
  {
    forall s | 0 <= s < |trie| ensures Row(trie[s].next, ix.labels[s], ix, Filled(D, next, 0, s)) {
      assert Row(trie[s].next, ix.labels[s], ix, Filled(D, cur, 0, s));
    }
  }

  lemma AllRowsComplete(trie: seq<ArrayState>, ix: Index, D: set<nat>)
    requires Indexed(ix) && Rows(trie, ix, D, 0, 0) && Indices(|ix.labels|) <= D
    ensures Complete(trie, ix)
  {
    forall s | 0 <= s < |trie| ensures FullRow(trie[s].next, ix.labels[s], ix) {
      assert Row(trie[s].next, ix.labels[s], ix, 256);
    }
  }

  ghost function Below(k: nat): (r: set<Byte>)
    requires k <= 256
    ensures forall c: Byte :: c in r <==> c < k
  {
    if k == 0 then {} else Below(k - 1) + {k - 1}
  }

  /** The state of `build` while the row of the depth-zero state is filled, ... */
  ghost predicate FillingRoot(trie: seq<ArrayState>, ix: Index, q: seq<nat>, k: nat)
    requires Indexed(ix) && k <= 256
  {
    Rows(trie, ix, {}, 0, k) && Expanding(ix, {}, q, 0, Below(k)) && Progress(trie, ix, Members(q))
  }

  /** ... and while the row of a dequeued state is. */
  ghost predicate Filling(trie: seq<ArrayState>, ix: Index, D: set<nat>, q: seq<nat>, cur: nat, k: nat)
    requires Indexed(ix) && k <= 256
  {
    && cur != 0
    && Rows(trie, ix, D, cur, k) && Expanding(ix, D, q, cur, Below(k))
    && Progress(trie, ix, D + Members(q) + {cur}) && HoldsDepth(ix, D + Members(q) + {cur}, |ix.labels[cur]|)
  }

  lemma FillRootStep(trie: seq<ArrayState>, ix: Index, q: seq<nat>, k: Byte)
    requires Indexed(ix) && FillingRoot(trie, ix, q, k)
    ensures |trie| > 0 && |trie[0].next| == 256 && trie[0].next[k] >= NO_STATE && var s := trie[0].next[k];
      if s == NO_STATE then FillingRoot(trie[0 := trie[0].(next := trie[0].next[k := 0])], ix, q, k + 1)
      else 0 < s < |trie| && FillingRoot(trie[s := trie[s].(fail := 0)], ix, q + [s], k + 1)
  {
    assert Row(trie[0].next, ix.labels[0], ix, k);
    assert trie[0].next[k] == Entry(ix.labels[0], ix, k, k);
    var w := ix.labels[0] + [k];
    assert Below(k + 1) == Below(k) + {k};
    if w in ix.ids {
      var s := ix.ids[w];
      KeepEntry(trie, ix, {}, 0, k);
      DepthOneStep(trie, ix, q, Below(k), k);
      TransitionsKept(trie, ix, {}, 0, k + 1, s, trie[s].(fail := 0));
    } else {
      assert w[1..] == [];
      FillEntry(trie, ix, {}, 0, k, 0);
      SkipByte(ix, {}, q, 0, Below(k), k);
      RowChanged(trie, ix, Members(q), 0, trie[0].next[k := 0]);
    }
  }

  lemma RootUntouched(trie: seq<ArrayState>, ix: Index)
    requires Trie(trie, ix) && AllUnlinked(trie, ix)
    ensures Indexed(ix) && FillingRoot(trie, ix, [], 0)
  {
    StartAtRoot(ix);
    NothingLinkedYet(trie, ix);
    assert Members<nat>([]) == {};
  }

  lemma RootFilled(trie: seq<ArrayState>, ix: Index, q: seq<nat>)
    requires Indexed(ix) && FillingRoot(trie, ix, q, 256)
    ensures Rows(trie, ix, {0}, 0, 0) && Frontier(ix, {0}, q) && Progress(trie, ix, {0} + Members(q))
  {
    NextRow(trie, ix, {}, 0, 0);
    FinishExpanding(ix, {}, q, 0, Below(256));
    assert {} + {0} == {0};
    RootIsFinal(trie, ix, Members(q));
  }

  /** The failure state of a dequeued state was dequeued before it: its row is complete. */
  lemma FailRowIsComplete(trie: seq<ArrayState>, ix: Index, D: set<nat>, q: seq<nat>, cur: nat, k: nat, c: Byte)
    requires Indexed(ix) && k <= 256 && Filling(trie, ix, D, q, cur, k)
    ensures var f := trie[cur].fail;
      && f in D && f < |trie| && ix.labels[f] == Fail(ix.ids.Keys, ix.labels[cur]) && |trie[f].next| == 256
      && trie[f].next[c] == ix.ids[Longest(ix.ids.Keys, ix.labels[f] + [c])]
  {
    var f := trie[cur].fail;
    assert ix.labels[cur] != [];
    assert ix.labels[f] == Fail(ix.ids.Keys, ix.labels[cur]);
    assert |Fail(ix.ids.Keys, ix.labels[cur])| < |ix.labels[cur]|;
    assert f in D + Members(q) + {cur};
    assert Row(trie[f].next, ix.labels[f], ix, 256);
    assert trie[f].next[c] == Entry(ix.labels[f], ix, 256, c);
  }

  lemma FillStep(trie: seq<ArrayState>, ix: Index, D: set<nat>, q: seq<nat>, cur: nat, k: Byte)
    requires Indexed(ix) && Filling(trie, ix, D, q, cur, k)
    ensures |trie[cur].next| == 256
    ensures trie[cur].next[k] == NO_STATE || 0 < trie[cur].next[k] < |trie|
    ensures trie[cur].fail < |trie| && |trie[trie[cur].fail].next| == 256
    ensures var fs, s := trie[trie[cur].fail].next[k], trie[cur].next[k];
      0 <= fs < |trie| &&
      if s == NO_STATE then Filling(trie[cur := trie[cur].(next := trie[cur].next[k := fs])], ix, D, q, cur, k + 1)
      else s != fs && s != cur && Filling(trie[s := Inherit(trie[s], fs, trie[fs])], ix, D, q + [s], cur, k + 1)
  {
    assert Row(trie[cur].next, ix.labels[cur], ix, k);
    assert trie[cur].next[k] == Entry(ix.labels[cur], ix, k, k);
    FailRowIsComplete(trie, ix, D, q, cur, k, k);
    var fs := trie[trie[cur].fail].next[k];
    var w := ix.labels[cur] + [k];
    assert Below(k + 1) == Below(k) + {k};
    if w in ix.ids {
      var s := ix.ids[w];
      KeepEntry(trie, ix, D, cur, k);
      ChildStep(trie, ix, D, q, cur, Below(k), k, fs);
      TransitionsKept(trie, ix, D, cur, k + 1, s, Inherit(trie[s], fs, trie[fs]));
    } else {
      MissGoesToFail(ix.ids.Keys, ix.labels[cur], k);
      FillEntry(trie, ix, D, cur, k, fs);
      SkipByte(ix, D, q, cur, Below(k), k);
      RowChanged(trie, ix, D + Members(q) + {cur}, cur, trie[cur].next[k := fs]);
    }
  }

  /** One table access of a scan: the new state, and what its flags say about the text. */
  lemma ScanRoundByTable(trie: seq<ArrayState>, ix: Index, text: Text, n: nat, state: nat)
    requires Complete(trie, ix) && HoldsPatterns(ix) && AllLinked(trie, ix)
    requires n < |text| && Quiet(ix.ids.Keys, ix.ends, ix.mids, text, n)
    requires state < |trie| && ix.labels[state] == Longest(ix.ids.Keys, text[..n])
    ensures |trie[state].next| == 256
    ensures var t := trie[state].next[text[n]];
      && 0 <= t < |trie| && ix.labels[t] == Longest(ix.ids.Keys, text[..n + 1])
      && trie[t].isEndAnchored == Flag(ix.ids.Keys, ix.ends, ix.labels[t])
      && var hit := trie[t].isMid || (n == |text| - 1 && trie[t].isEndAnchored);
         if hit then Accepts(ix.ends, ix.mids, text) else Quiet(ix.ids.Keys, ix.ends, ix.mids, text, n + 1)
  {
    ScanRound(ix.ends, ix.mids, text, n);
    assert FullRow(trie[state].next, ix.labels[state], ix);
    var t := trie[state].next[text[n]];
    assert Linked(trie[t], ix.labels[t], ix);
  }

  /** Before the first byte. */
  lemma ScanStarts(trie: seq<ArrayState>, ix: Index, text: Text)
    requires Complete(trie, ix) && HoldsPatterns(ix)
    ensures |trie| == |ix.labels| > 0 && [] in ix.ids.Keys && ix.ids.Keys == Prefixes(ix.ends + ix.mids)
    ensures ix.labels[0] == Longest(ix.ids.Keys, text[..0]) && Quiet(ix.ids.Keys, ix.ends, ix.mids, text, 0)
  {
  }

  lemma PathStarts(trie: seq<ArrayState>, ix: Index)
    requires Trie(trie, ix)
    ensures |trie| == |ix.labels| > 0 && ix.labels[0] == [] && [] in ix.ids
  {
  }

  class AhoCorasickArray {
    var trie: seq<ArrayState>
    ghost var ix: Index

    /** Patterns may still be inserted. */
    ghost predicate Open()
      reads this
    {
      Trie(trie, ix) && HoldsPatterns(ix) && AllUnlinked(trie, ix)
    }

    /** The transitions form a complete automaton; links and flags have their final values. */
    ghost predicate Built()
      reads this
    {
      Complete(trie, ix) && HoldsPatterns(ix) && AllLinked(trie, ix)
    }

    constructor ()
      ensures Open() && ix.ends == {} && ix.mids == {}
    {
      trie := [EMPTY_STATE];
      ix := EMPTY_INDEX;
    }

    method Extend(cur: nat, c: Byte) returns (r: nat)
      requires Trie(trie, ix) && AllUnlinked(trie, ix) && ix.ends + ix.mids <= ix.ids.Keys
      requires cur < |trie|
      modifies this
      ensures Trie(trie, ix) && AllUnlinked(trie, ix) && ix.ends == old(ix.ends) && ix.mids == old(ix.mids)
      ensures r < |trie| == |ix.labels| && ix.labels[r] == old(ix.labels[cur]) + [c]
      ensures ix.ids.Keys == old(ix.ids.Keys) + {old(ix.labels[cur]) + [c]}
    {
      assert Row(trie[cur].next, ix.labels[cur], ix, 0);
      assert trie[cur].next[c] == Entry(ix.labels[cur], ix, 0, c);
      if trie[cur].next[c] == NO_STATE {
        ghost var w := ix.labels[cur] + [c];
        GrowTrie(trie, ix, cur, c);
        GrowUnlinked(trie, ix, cur, trie[cur].next[c := |trie|], Blank(256), w);
        r := |trie|;
        trie := WithChild(trie, cur, c);
        ix := WithLabel(ix, w);
      } else {
        r := trie[cur].next[c];
      }
    }

    method BuildPath(pattern: Text) returns (cur: nat)
      requires Trie(trie, ix) && AllUnlinked(trie, ix) && ix.ends + ix.mids <= ix.ids.Keys
      modifies this
      ensures Trie(trie, ix) && AllUnlinked(trie, ix) && ix.ends == old(ix.ends) && ix.mids == old(ix.mids)
      ensures ix.ids.Keys == old(ix.ids.Keys) + Walked(pattern, |pattern|)
      ensures cur < |trie| && ix.labels[cur] == pattern
    {
      hide Trie, AllUnlinked, PrefixClosed;
      PathStarts(trie, ix);
      cur := 0;
      for i := 0 to |pattern|
        invariant Trie(trie, ix) && AllUnlinked(trie, ix)
        invariant ix.ends == old(ix.ends) && ix.mids == old(ix.mids) && ix.ends + ix.mids <= ix.ids.Keys
        invariant cur < |trie| == |ix.labels| && ix.labels[cur] == pattern[..i]
        invariant ix.ids.Keys == old(ix.ids.Keys) + Walked(pattern, i)
      {
        TakeSnoc(pattern, i);
        cur := Extend(cur, pattern[i]);
      }
    }

    method InsertEndAnchored(pattern: Text)
      requires Open()
      modifies this
      ensures Open() && ix.ends == old(ix.ends) + {pattern} && ix.mids == old(ix.mids)
    {
      PatternsArePrefixes(ix.ends + ix.mids);
      var cur := BuildPath(pattern);
      OneMorePattern(old(ix), ix, pattern);
      MarkPattern(trie, ix, cur);
      TransitionsKept(trie, ix, {}, 0, 0, cur, trie[cur].(isEndAnchored := true));
      trie := trie[cur := trie[cur].(isEndAnchored := true)];
      ix := ix.(ends := ix.ends + {pattern});
    }

    method InsertMid(pattern: Text)
      requires Open()
      modifies this
      ensures Open() && ix.mids == old(ix.mids) + {pattern} && ix.ends == old(ix.ends)
    {
      PatternsArePrefixes(ix.ends + ix.mids);
      var cur := BuildPath(pattern);
      OneMorePattern(old(ix), ix, pattern);
      MarkPattern(trie, ix, cur);
      TransitionsKept(trie, ix, {}, 0, 0, cur, trie[cur].(isMid := true));
      trie := trie[cur := trie[cur].(isMid := true)];
      ix := ix.(mids := ix.mids + {pattern});
    }

    method CompleteRoot() returns (q: seq<nat>)
      requires Open()
      modifies this`trie
      ensures Indexed(ix) && Rows(trie, ix, {0}, 0, 0) && Frontier(ix, {0}, q) && Progress(trie, ix, {0} + Members(q))
    {
      hide Trie, Rows, FillingRoot, Progress, Frontier, HoldsPatterns, AllUnlinked, PrefixClosed;
      q := [];
      RootUntouched(trie, ix);
      for c := 0 to 256
        invariant Indexed(ix) && FillingRoot(trie, ix, q, c)
      {
        FillRootStep(trie, ix, q, c);
        var s := trie[0].next[c];
        if s == NO_STATE {
          trie := trie[0 := trie[0].(next := trie[0].next[c := 0])];
        } else {
          trie := trie[s := trie[s].(fail := 0)];
          q := q + [s];
        }
      }
      RootFilled(trie, ix, q);
    }

    /** Takes the front state from the queue and completes its row, linking and queueing its children. */
    method CompleteRow(queue: seq<nat>, ghost D: set<nat>) returns (q: seq<nat>, ghost pushed: nat)
      requires Indexed(ix) && Rows(trie, ix, D, 0, 0) && Frontier(ix, D, queue) && queue != []
      requires Progress(trie, ix, D + Members(queue))
      modifies this`trie
      ensures queue[0] in Indices(|ix.labels|) - D
      ensures var D' := D + {queue[0]};
        Rows(trie, ix, D', 0, 0) && Frontier(ix, D', q) && Progress(trie, ix, D' + Members(q))
      ensures |q| == |queue| - 1 + pushed
    {
      Dequeue(trie, ix, D, queue);
      var cur := queue[0];
      q, pushed := queue[1..], 0;
      SwitchRow(trie, ix, D, 0, cur);
      for c := 0 to 256
        invariant Filling(trie, ix, D, q, cur, c)
        invariant |q| == |queue| - 1 + pushed
      {
        FillStep(trie, ix, D, q, cur, c);
        var ns := trie[cur].next[c];
        var fs := trie[trie[cur].fail].next[c];
        if ns == NO_STATE {
          trie := trie[cur := trie[cur].(next := trie[cur].next[c := fs])];
        } else {
          trie := trie[ns := Inherit(trie[ns], fs, trie[fs])];
          q, pushed := q + [ns], pushed + 1;
        }
      }
      NextRow(trie, ix, D, cur, 0);
      FinishExpanding(ix, D, q, cur, Below(256));
      assert D + Members(q) + {cur} == D + {cur} + Members(q);
    }

    /** Breadth-first completion.  Every state but the root is pushed exactly once. */
    method Build() returns (ghost pushes: nat)
      requires Open()
      modifies this`trie
      ensures Built()
      ensures pushes == |trie| - 1
    {
      var q := CompleteRoot();
      pushes := |q|;
      ghost var D: set<nat> := {0};
      while q != []
        invariant Indexed(ix) && Rows(trie, ix, D, 0, 0) && Frontier(ix, D, q)
        invariant Progress(trie, ix, D + Members(q))
        invariant pushes + 1 == |D| + |q|
        decreases Indices(|ix.labels|) - D
      {
        ghost var cur := q[0];
        ghost var pushed;
        q, pushed := CompleteRow(q, D);
        D, pushes := D + {cur}, pushes + pushed;
      }
      EverythingHandled(ix, D);
      AllFinal(trie, ix, D + Members(q));
      AllRowsComplete(trie, ix, D);
    }

    /** Runs the automaton: one table access per byte, and the same answers as the hash-map version. */
    method Scan(text: Text) returns (r: bool)
      requires Built()
      ensures r == Accepts(ix.ends, ix.mids, text)
      ensures [] !in ix.ends + ix.mids ==> r == Matches(ix.ends, ix.mids, text)
    {
      var cur: nat := 0;
      if [] !in ix.ends + ix.mids { AcceptsIsMatches(ix.ends, ix.mids, text); }
      for i := 0 to |text|
        invariant cur < |trie| && ix.labels[cur] == Longest(ix.ids.Keys, text[..i])
        invariant Quiet(ix.ids.Keys, ix.ends, ix.mids, text, i)
      {
        ScanRoundByTable(trie, ix, text, i, cur);
        cur := trie[cur].next[text[i]];
        if trie[cur].isMid {
          return true;
        }
        if i == |text| - 1 && trie[cur].isEndAnchored {
          return true;
        }
      }
      return false;
    }
  }
}
