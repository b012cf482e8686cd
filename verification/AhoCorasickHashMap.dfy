/** The automaton with hash-map transitions and failure hops at scan time. */
module HashMapAutomaton {
  import opened Bytes
  import opened FiniteSets
  import opened SuffixTheory
  import opened TrieIndex
  import opened AutomatonStates

  type HashState = State<map<Byte, nat>>

  const EMPTY_STATE: HashState := State(map[], 0, false, false)

  /** The outgoing transitions of the state labelled w. */
  ghost predicate Edges(next: map<Byte, nat>, w: Text, ix: Index) {
    forall c: Byte ::
      && (c in next <==> w + [c] in ix.ids)
      && (c in next ==> next[c] == ix.ids[w + [c]])
  }

  ghost predicate Trie(trie: seq<HashState>, ix: Index) {
    && Indexed(ix)
    && |trie| == |ix.labels|
    && forall s {:trigger trie[s]} | 0 <= s < |trie| :: Edges(trie[s].next, ix.labels[s], ix)
  }

  lemma OldEdges(next: map<Byte, nat>, v: Text, ix: Index, u: Text, c: Byte)
    requires Edges(next, v, ix)
    ensures Edges(if v == u then next[c := |ix.labels|] else next, v, WithLabel(ix, u + [c]))
  {
    forall b: Byte ensures v + [b] == u + [c] <==> v == u && b == c { SnocInjective(v, b, u, c); }
  }

  function WithChild(trie: seq<HashState>, s: nat, c: Byte): seq<HashState>
    requires s < |trie|
  {
    trie[s := trie[s].(next := trie[s].next[c := |trie|])] + [EMPTY_STATE]
  }

  lemma GrowTrie(trie: seq<HashState>, ix: Index, s: nat, c: Byte)
    requires Trie(trie, ix) && s < |trie| && c !in trie[s].next
    ensures ix.labels[s] + [c] !in ix.ids
    ensures Trie(WithChild(trie, s, c), WithLabel(ix, ix.labels[s] + [c]))
  {
    var w := ix.labels[s] + [c];
    var trie' := WithChild(trie, s, c);
    var ix' := WithLabel(ix, w);
    assert Edges(trie[s].next, ix.labels[s], ix);
    AddChild(ix, s, c);
    forall t | 0 <= t < |trie'| ensures Edges(trie'[t].next, ix'.labels[t], ix') {
      if t == |trie| {
        forall b: Byte ensures w + [b] !in ix'.ids {
          NoGrandchildren(ix, w, b);
        }
      } else {
        OldEdges(trie[t].next, ix.labels[t], ix, ix.labels[s], c);
      }
    }
  }

  /** Failure links and flags may change freely: the tree is in the transitions. */
  lemma TransitionsKept(trie: seq<HashState>, ix: Index, s: nat, st: HashState)
    requires Trie(trie, ix) && s < |trie| && st.next == trie[s].next
    ensures Trie(trie[s := st], ix)
  {
  }

  /** Marking a pattern changes a flag and the ghost pattern sets only. */
  lemma TransitionsKeptMarked(trie: seq<HashState>, ix: Index, s: nat, st: HashState, ix': Index)
    requires Trie(trie, ix) && s < |trie| && st.next == trie[s].next && ix'.labels == ix.labels && ix'.ids == ix.ids
    ensures Trie(trie[s := st], ix')
  {
    hide PrefixClosed;
    var trie' := trie[s := st];
    forall t | 0 <= t < |trie'| ensures Edges(trie'[t].next, ix'.labels[t], ix') {
      assert Edges(trie[t].next, ix.labels[t], ix);
    }
  }

  /** The state of `build` while the transitions of the root are visited: those over todo are left, ... */
  ghost predicate LinkingRoot(trie: seq<HashState>, ix: Index, q: seq<nat>, all: set<Byte>, todo: set<Byte>) {
    && Trie(trie, ix) && |trie| > 0 && todo <= all == trie[0].next.Keys
    && Expanding(ix, {}, q, 0, all - todo) && Progress(trie, ix, Members(q))
  }

  /** ... and while those of a dequeued state are. */
  ghost predicate Linking(trie: seq<HashState>, ix: Index, D: set<nat>, q: seq<nat>, cur: nat, all: set<Byte>,
                          todo: set<Byte>)
  {
    && Trie(trie, ix) && 0 < cur < |trie| && todo <= all == trie[cur].next.Keys
    && Expanding(ix, D, q, cur, all - todo) && Progress(trie, ix, D + Members(q) + {cur})
    && HoldsDepth(ix, D + Members(q) + {cur}, |ix.labels[cur]|)
  }

  lemma RootUntouched(trie: seq<HashState>, ix: Index)
    requires Trie(trie, ix) && AllUnlinked(trie, ix)
    ensures |trie| > 0 && LinkingRoot(trie, ix, [], trie[0].next.Keys, trie[0].next.Keys)
  {
    StartAtRoot(ix);
    NothingLinkedYet(trie, ix);
    var all := trie[0].next.Keys;
    assert all - all == {} && Members<nat>([]) == {};
  }

  lemma LinkRootStep(trie: seq<HashState>, ix: Index, q: seq<nat>, all: set<Byte>, todo: set<Byte>, c: Byte)
    requires LinkingRoot(trie, ix, q, all, todo) && c in todo
    ensures |trie| > 0 && c in trie[0].next && var s := trie[0].next[c];
      s < |trie| && LinkingRoot(trie[s := trie[s].(fail := 0)], ix, q + [s], all, todo - {c})
  {
    hide Expanding, Progress, PrefixClosed, Members;
    assert Edges(trie[0].next, ix.labels[0], ix);
    var s := trie[0].next[c];
    OneDone(all, todo, c);
    DepthOneStep(trie, ix, q, all - todo, c);
    TransitionsKept(trie, ix, s, trie[s].(fail := 0));
  }

  lemma RootLinked(trie: seq<HashState>, ix: Index, q: seq<nat>, all: set<Byte>)
    requires LinkingRoot(trie, ix, q, all, {})
    ensures Trie(trie, ix) && Frontier(ix, {0}, q) && Progress(trie, ix, {0} + Members(q))
  {
    hide Expanding, Progress, Frontier, PrefixClosed;
    assert Edges(trie[0].next, ix.labels[0], ix);
    assert all - {} == all && {} + {0} == {0};
    FinishExpanding(ix, {}, q, 0, all);
    RootIsFinal(trie, ix, Members(q));
  }

  lemma ChildrenUntouched(trie: seq<HashState>, ix: Index, D: set<nat>, q: seq<nat>)
    requires Trie(trie, ix) && Frontier(ix, D, q) && q != [] && Progress(trie, ix, D + Members(q))
    ensures q[0] in Indices(|ix.labels|) - D && 0 < q[0] < |trie| == |ix.labels|
    ensures var all := trie[q[0]].next.Keys; Linking(trie, ix, D, q[1..], q[0], all, all)
  {
    hide Expanding, HoldsDepth, PrefixClosed;
    Dequeue(trie, ix, D, q);
    var all := trie[q[0]].next.Keys;
    assert all - all == {};
  }

  /** The child of cur over c may be looked up: the failure state of cur is final. */
  lemma ChildToLink(trie: seq<HashState>, ix: Index, D: set<nat>, q: seq<nat>, cur: nat, all: set<Byte>,
                    todo: set<Byte>, c: Byte)
    requires Linking(trie, ix, D, q, cur, all, todo) && c in todo
    ensures Indexed(ix) && [] in ix.ids && c in trie[cur].next && trie[cur].fail < |trie| == |ix.labels|
    ensures LinkedTo(trie, ix, |ix.labels[trie[cur].fail]|)
  {
    hide Expanding, Edges, PrefixClosed;
    ProgressLinks(trie, ix, D + Members(q) + {cur}, |ix.labels[cur]|);
    assert ix.labels[cur] != [];
    assert trie[cur].fail == ix.ids[Fail(ix.ids.Keys, ix.labels[cur])];
  }

  lemma LinkStep(trie: seq<HashState>, ix: Index, D: set<nat>, q: seq<nat>, cur: nat,
                 all: set<Byte>, todo: set<Byte>, c: Byte, fs: nat)
    requires Linking(trie, ix, D, q, cur, all, todo) && c in todo
    requires |trie| == |ix.labels| && trie[cur].fail < |trie| && fs < |trie|
    requires Indexed(ix) && ix.labels[fs] == Longest(ix.ids.Keys, ix.labels[trie[cur].fail] + [c])
    ensures c in trie[cur].next && var s := trie[cur].next[c];
      && s < |trie| && s != fs
      && Linking(trie[s := Inherit(trie[s], fs, trie[fs])], ix, D, q + [s], cur, all, todo - {c})
  {
    hide Expanding, Progress, HoldsDepth, PrefixClosed, Longest, Members;
    assert Edges(trie[cur].next, ix.labels[cur], ix);
    var s := trie[cur].next[c];
    OneDone(all, todo, c);
    ChildStep(trie, ix, D, q, cur, all - todo, c, fs);
    TransitionsKept(trie, ix, s, Inherit(trie[s], fs, trie[fs]));
  }

  lemma ChildrenLinked(trie: seq<HashState>, ix: Index, D: set<nat>, q: seq<nat>, cur: nat, all: set<Byte>)
    requires Linking(trie, ix, D, q, cur, all, {})
    ensures var D' := D + {cur}; Trie(trie, ix) && Frontier(ix, D', q) && Progress(trie, ix, D' + Members(q))
  {
    hide Expanding, Progress, Frontier, PrefixClosed;
    assert Edges(trie[cur].next, ix.labels[cur], ix);
    assert all - {} == all;
    FinishExpanding(ix, D, q, cur, all);
    assert D + Members(q) + {cur} == D + {cur} + Members(q);
  }

  lemma TrieIsIndexed(trie: seq<HashState>, ix: Index)
    requires Trie(trie, ix)
    ensures Indexed(ix) && |trie| == |ix.labels|
  {
  }

  lemma PathStarts(trie: seq<HashState>, ix: Index)
    requires Trie(trie, ix)
    ensures |trie| == |ix.labels| > 0 && ix.labels[0] == [] && [] in ix.ids
  {
  }

  class AhoCorasickHashMap {
    var trie: seq<HashState>
    ghost var ix: Index

    /** Patterns may still be inserted. */
    ghost predicate Open()
      reads this
    {
      Trie(trie, ix) && HoldsPatterns(ix) && AllUnlinked(trie, ix)
    }

    /** Every failure link and flag has its final value. */
    ghost predicate Built()
      reads this
    {
      Trie(trie, ix) && HoldsPatterns(ix) && AllLinked(trie, ix)
    }

    constructor ()
      ensures Open() && ix.ends == {} && ix.mids == {}
    {
      trie := [EMPTY_STATE];
      ix := EMPTY_INDEX;
    }

    /** One byte of `buildPath`: follow the transition, creating it when it is missing. */
    method Extend(cur: nat, c: Byte) returns (r: nat)
      requires Trie(trie, ix) && AllUnlinked(trie, ix) && ix.ends + ix.mids <= ix.ids.Keys
      requires cur < |trie|
      modifies this
      ensures Trie(trie, ix) && AllUnlinked(trie, ix) && ix.ends == old(ix.ends) && ix.mids == old(ix.mids)
      ensures r < |trie| == |ix.labels| && ix.labels[r] == old(ix.labels[cur]) + [c]
      ensures ix.ids.Keys == old(ix.ids.Keys) + {old(ix.labels[cur]) + [c]}
    {
      assert Edges(trie[cur].next, ix.labels[cur], ix);
      if c !in trie[cur].next {
        ghost var w := ix.labels[cur] + [c];
        GrowTrie(trie, ix, cur, c);
        GrowUnlinked(trie, ix, cur, trie[cur].next[c := |trie|], map[], w);
        r := |trie|;
        trie := WithChild(trie, cur, c);
        ix := WithLabel(ix, w);
      } else {
        r := trie[cur].next[c];
      }
    }

    method BuildPath(pattern: Text) returns (cur: nat)
      requires Trie(trie, ix) && AllUnlinked(trie, ix) && ix.ends + ix.mids <= ix.ids.Keys
      modifies this
      ensures Trie(trie, ix) && AllUnlinked(trie, ix) && ix.ends == old(ix.ends) && ix.mids == old(ix.mids)
      ensures ix.ids.Keys == old(ix.ids.Keys) + Walked(pattern, |pattern|)
      ensures cur < |trie| && ix.labels[cur] == pattern
    {
      hide Trie, Edges, Unlinked, AllUnlinked, PrefixClosed;
      PathStarts(trie, ix);
      cur := 0;
      for i := 0 to |pattern|
        invariant Trie(trie, ix) && AllUnlinked(trie, ix)
        invariant ix.ends == old(ix.ends) && ix.mids == old(ix.mids) && ix.ends + ix.mids <= ix.ids.Keys
        invariant cur < |trie| == |ix.labels| && ix.labels[cur] == pattern[..i]
        invariant ix.ids.Keys == old(ix.ids.Keys) + Walked(pattern, i)
      {
        TakeSnoc(pattern, i);
        cur := Extend(cur, pattern[i]);
      }
    }

    method InsertEndAnchored(pattern: Text)
      requires Open()
      modifies this
      ensures Open() && ix.ends == old(ix.ends) + {pattern} && ix.mids == old(ix.mids)
    {
      PatternsArePrefixes(ix.ends + ix.mids);
      var cur := BuildPath(pattern);
      hide Edges, Unlinked, AllUnlinked, Walked, Prefixes;
      OneMorePattern(old(ix), ix, pattern);
      MarkPattern(trie, ix, cur);
      TransitionsKeptMarked(trie, ix, cur, trie[cur].(isEndAnchored := true), ix.(ends := ix.ends + {pattern}));
      trie := trie[cur := trie[cur].(isEndAnchored := true)];
      ix := ix.(ends := ix.ends + {pattern});
    }

    method InsertMid(pattern: Text)
      requires Open()
      modifies this
      ensures Open() && ix.mids == old(ix.mids) + {pattern} && ix.ends == old(ix.ends)
    {
      PatternsArePrefixes(ix.ends + ix.mids);
      var cur := BuildPath(pattern);
      hide Edges, Unlinked, AllUnlinked, Walked, Prefixes;
      OneMorePattern(old(ix), ix, pattern);
      MarkPattern(trie, ix, cur);
      TransitionsKeptMarked(trie, ix, cur, trie[cur].(isMid := true), ix.(mids := ix.mids + {pattern}));
      trie := trie[cur := trie[cur].(isMid := true)];
      ix := ix.(mids := ix.mids + {pattern});
    }

    /** The transition the automaton takes from `from` on byte c, hopping over failure links while no
        direct transition exists.  Every hop loses depth, so hops pay for themselves. */
    method Goto(from: nat, c: Byte) returns (t: nat, ghost hops: nat)
      requires Trie(trie, ix) && from < |trie| && LinkedTo(trie, ix, |ix.labels[from]|)
      ensures t < |trie| && ix.labels[t] == Longest(ix.ids.Keys, ix.labels[from] + [c])
      ensures |ix.labels[t]| + hops <= |ix.labels[from]| + 1
    {
      var cur: nat := from;
      hops := 0;
      while cur != 0 && c !in trie[cur].next
        invariant cur < |ix.labels| && |trie| == |ix.labels|
        invariant |ix.labels[cur]| + hops <= |ix.labels[from]|
        invariant Longest(ix.ids.Keys, ix.labels[cur] + [c]) == Longest(ix.ids.Keys, ix.labels[from] + [c])
        decreases |ix.labels[cur]|
      {
        assert Edges(trie[cur].next, ix.labels[cur], ix);
        MissGoesToFail(ix.ids.Keys, ix.labels[cur], c);
        cur := trie[cur].fail;
        hops := hops + 1;
      }
      assert Edges(trie[cur].next, ix.labels[cur], ix);
      if c in trie[cur].next {
        t := trie[cur].next[c];
      } else {
        t := 0;
      }
    }

    /** Queues the depth-one states, in the arbitrary order of the hash map. */
    method LinkDepthOne() returns (q: seq<nat>)
      requires Open()
      modifies this`trie
      ensures Trie(trie, ix) && Frontier(ix, {0}, q) && Progress(trie, ix, {0} + Members(q))
    {
      hide Trie, Expanding, Progress, Frontier, HoldsPatterns, AllUnlinked, Indexed;
      q := [];
      RootUntouched(trie, ix);
      var todo := trie[0].next.Keys;
      ghost var all := todo;
      while todo != {}
        invariant LinkingRoot(trie, ix, q, all, todo)
      {
        var c: Byte :| c in todo;
        LinkRootStep(trie, ix, q, all, todo, c);
        var s := trie[0].next[c];
        trie := trie[s := trie[s].(fail := 0)];
        q := q + [s];
        todo := todo - {c};
      }
      RootLinked(trie, ix, q, all);
    }

    /** Takes the front state from the queue, links its children and queues them, again in arbitrary order. */
    method LinkChildren(queue: seq<nat>, ghost D: set<nat>) returns (q: seq<nat>, ghost pushed: nat)
      requires Trie(trie, ix) && Frontier(ix, D, queue) && queue != [] && Progress(trie, ix, D + Members(queue))
      modifies this`trie
      ensures queue[0] in Indices(|ix.labels|) - D
      ensures var D' := D + {queue[0]}; Trie(trie, ix) && Frontier(ix, D', q) && Progress(trie, ix, D' + Members(q))
      ensures |q| == |queue| - 1 + pushed
    {
      hide Trie, Expanding, Progress, HoldsDepth, Frontier, Indexed, LinkedTo;
      ChildrenUntouched(trie, ix, D, queue);
      var cur := queue[0];
      q, pushed := queue[1..], 0;
      var todo := trie[cur].next.Keys;
      ghost var all := todo;
      while todo != {}
        invariant Linking(trie, ix, D, q, cur, all, todo)
        invariant |q| == |queue| - 1 + pushed
      {
        var c: Byte :| c in todo;
        ChildToLink(trie, ix, D, q, cur, all, todo, c);
        var nextState := trie[cur].next[c];
        var it, hops := Goto(trie[cur].fail, c);
        LinkStep(trie, ix, D, q, cur, all, todo, c, it);
        var fs := if it != nextState then it else 0;
        trie := trie[nextState := Inherit(trie[nextState], fs, trie[fs])];
        q, pushed := q + [nextState], pushed + 1;
        todo := todo - {c};
      }
      ChildrenLinked(trie, ix, D, q, cur, all);
    }

    /** Breadth-first linking.  Every state but the root is pushed exactly once. */
    method Build() returns (ghost pushes: nat)
      requires Open()
      modifies this`trie
      ensures Built()
      ensures pushes == |trie| - 1
    {
      hide Trie, Frontier, Progress, HoldsPatterns, AllUnlinked, AllLinked;
      TrieIsIndexed(trie, ix);
      var q := LinkDepthOne();
      pushes := |q|;
      ghost var D: set<nat> := {0};
      while q != []
        invariant Trie(trie, ix) && Frontier(ix, D, q)
        invariant Progress(trie, ix, D + Members(q))
        invariant pushes + 1 == |D| + |q|
        decreases Indices(|ix.labels|) - D
      {
        ghost var cur := q[0];
        ghost var pushed;
        q, pushed := LinkChildren(q, D);
        D, pushes := D + {cur}, pushes + pushed;
      }
      EverythingHandled(ix, D);
      AllFinal(trie, ix, D + Members(q));
    }

    /** Scans text, keeping cur at the longest suffix of the bytes read that is in the trie.  The
        answer is the substring/suffix question itself as soon as no empty pattern was inserted. */
    method Scan(text: Text) returns (r: bool, ghost hops: nat)
      requires Built()
      ensures r == Accepts(ix.ends, ix.mids, text)
      ensures [] !in ix.ends + ix.mids ==> r == Matches(ix.ends, ix.mids, text)
      ensures hops <= |text|
    {
      var cur: nat := 0;
      hops := 0;
      if [] !in ix.ends + ix.mids { AcceptsIsMatches(ix.ends, ix.mids, text); }
      LinkedEverywhere(trie, ix);
      for i := 0 to |text|
        invariant cur < |trie| && ix.labels[cur] == Longest(ix.ids.Keys, text[..i])
        invariant |ix.labels[cur]| + hops <= i
        invariant Quiet(ix.ids.Keys, ix.ends, ix.mids, text, i)
      {
        ScanRound(ix.ends, ix.mids, text, i);
        ghost var more;
        cur, more := Goto(cur, text[i]);
        hops := hops + more;
        assert Linked(trie[cur], ix.labels[cur], ix);
        if trie[cur].isMid {
          return true, hops;
        }
        if i == |text| - 1 && trie[cur].isEndAnchored {
          return true, hops;
        }
      }
      return false, hops;
    }
  }
}
