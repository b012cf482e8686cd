/** Trie states with failure links and match flags, for either representation N of the transitions,
    and what a breadth-first `build` has made of them so far. */
module AutomatonStates {
  import opened Bytes
  import opened FiniteSets
  import opened SuffixTheory
  import opened TrieIndex

  datatype State<N> = State(next: N, fail: nat, isEndAnchored: bool, isMid: bool)

  /** As left behind by insertion: a flag only tells that the label itself is a pattern. */
  ghost predicate Unlinked<N>(s: State<N>, w: Text, ix: Index) {
    s.fail == 0 && s.isEndAnchored == (w in ix.ends) && s.isMid == (w in ix.mids)
  }

  /** As required after `build`. */
  ghost predicate Linked<N>(s: State<N>, w: Text, ix: Index)
    requires [] in ix.ids
  {
    && s.fail == (if w == [] then 0 else ix.ids[Fail(ix.ids.Keys, w)])
    && s.isEndAnchored == Flag(ix.ids.Keys, ix.ends, w)
    && s.isMid == Flag(ix.ids.Keys, ix.mids, w)
  }

  ghost predicate AllUnlinked<N>(trie: seq<State<N>>, ix: Index) {
    |ix.labels| == |trie| && forall s {:trigger trie[s]} | 0 <= s < |trie| :: Unlinked(trie[s], ix.labels[s], ix)
  }

  ghost predicate AllLinked<N>(trie: seq<State<N>>, ix: Index)
    requires [] in ix.ids
  {
    |ix.labels| == |trie| && forall s {:trigger trie[s]} | 0 <= s < |trie| :: Linked(trie[s], ix.labels[s], ix)
  }

  /** During `build`: the root and the states of E are final, all others are as inserted. */
  ghost predicate Progress<N>(trie: seq<State<N>>, ix: Index, E: set<nat>)
    requires [] in ix.ids
  {
    && |trie| == |ix.labels|
    && forall s {:trigger trie[s]} | 0 <= s < |trie| ::
         if s == 0 || s in E then Linked(trie[s], ix.labels[s], ix) else Unlinked(trie[s], ix.labels[s], ix)
  }

  /** Failure links are final for every state no deeper than depth. */
  ghost predicate LinkedTo<N>(trie: seq<State<N>>, ix: Index, depth: nat)
    requires [] in ix.ids
  {
    && |trie| == |ix.labels|
    && forall s {:trigger trie[s]} | 0 <= s < |trie| && |ix.labels[s]| <= depth ::
         trie[s].fail == (if ix.labels[s] == [] then 0 else ix.ids[Fail(ix.ids.Keys, ix.labels[s])])
  }

  lemma GrowUnlinked<N>(trie: seq<State<N>>, ix: Index, s: nat, next: N, blank: N, w: Text)
    requires AllUnlinked(trie, ix) && s < |trie| && w !in ix.ends + ix.mids
    ensures AllUnlinked(trie[s := trie[s].(next := next)] + [State(blank, 0, false, false)], WithLabel(ix, w))
  {
  }

  lemma MarkPattern<N>(trie: seq<State<N>>, ix: Index, s: nat)
    requires Indexed(ix) && AllUnlinked(trie, ix) && s < |trie|
    ensures AllUnlinked(trie[s := trie[s].(isEndAnchored := true)], ix.(ends := ix.ends + {ix.labels[s]}))
    ensures AllUnlinked(trie[s := trie[s].(isMid := true)], ix.(mids := ix.mids + {ix.labels[s]}))
  {
  }

  lemma NothingLinkedYet<N>(trie: seq<State<N>>, ix: Index)
    requires Indexed(ix) && AllUnlinked(trie, ix)
    ensures Progress(trie, ix, {})
  {
  }

  lemma RootIsFinal<N>(trie: seq<State<N>>, ix: Index, E: set<nat>)
    requires Indexed(ix) && Progress(trie, ix, E)
    ensures Progress(trie, ix, {0} + E)
  {
  }

  lemma AllFinal<N>(trie: seq<State<N>>, ix: Index, E: set<nat>)
    requires Indexed(ix) && Progress(trie, ix, E) && Indices(|ix.labels|) <= E
    ensures AllLinked(trie, ix)
  {
  }

  lemma LinkedEverywhere<N>(trie: seq<State<N>>, ix: Index)
    requires Indexed(ix) && AllLinked(trie, ix)
    ensures forall depth: nat :: LinkedTo(trie, ix, depth)
  {
  }

  /** Changing only transitions leaves links and flags where they were. */
  lemma RowChanged<N>(trie: seq<State<N>>, ix: Index, E: set<nat>, s: nat, next: N)
    requires Indexed(ix) && Progress(trie, ix, E) && s < |trie|
    ensures Progress(trie[s := trie[s].(next := next)], ix, E)
  {
  }

  lemma ProgressLinks<N>(trie: seq<State<N>>, ix: Index, E: set<nat>, depth: nat)
    requires Indexed(ix) && Progress(trie, ix, E) && HoldsDepth(ix, E, depth)
    ensures LinkedTo(trie, ix, depth)
  {
  }

  /** The state of a child once its failure link is fs. */
  function Inherit<N>(st: State<N>, fs: nat, from: State<N>): State<N> {
    st.(fail := fs, isEndAnchored := st.isEndAnchored || from.isEndAnchored, isMid := st.isMid || from.isMid)
  }

  /** Setting the failure link of one more state, and inheriting over it, finishes that state. */
  lemma LinkState<N>(trie: seq<State<N>>, ix: Index, E: set<nat>, t: nat, st: State<N>)
    requires Indexed(ix) && Progress(trie, ix, E)
    requires 0 < t < |trie| && t !in E
    requires st.fail < |trie| && ix.labels[t] != [] && ix.labels[st.fail] == Fail(ix.ids.Keys, ix.labels[t])
    requires |ix.labels[t]| == 1 ==> st.isEndAnchored == trie[t].isEndAnchored && st.isMid == trie[t].isMid
    requires |ix.labels[t]| >= 2 ==>
      && (st.fail == 0 || st.fail in E)
      && st.isEndAnchored == (trie[t].isEndAnchored || trie[st.fail].isEndAnchored)
      && st.isMid == (trie[t].isMid || trie[st.fail].isMid)
    ensures Progress(trie[t := st], ix, E + {t})
  {
    assert Unlinked(trie[t], ix.labels[t], ix);
    assert Linked(st, ix.labels[t], ix);
  }

  /** The first round of `build`: a state of depth one fails to the root and inherits nothing. */
  lemma DepthOneStep<N>(trie: seq<State<N>>, ix: Index, q: seq<nat>, done: set<Byte>, c: Byte)
    requires Indexed(ix) && Progress(trie, ix, Members(q)) && Expanding(ix, {}, q, 0, done)
    requires ix.labels[0] + [c] in ix.ids && c !in done
    ensures var s := ix.ids[ix.labels[0] + [c]];
      && 0 < s < |trie|
      && Expanding(ix, {}, q + [s], 0, done + {c})
      && Progress(trie[s := trie[s].(fail := 0)], ix, Members<nat>(q + [s]))
  {
    var s := ix.ids[ix.labels[0] + [c]];
    ChildIsFresh(ix, {}, q, 0, done, c);
    PushChild(ix, {}, q, 0, done, c);
    LinkState(trie, ix, Members(q), s, trie[s].(fail := 0));
  }

  /** A later round: the child of cur over c fails to the state reached from the failure state of cur. */
  lemma ChildStep<N>(trie: seq<State<N>>, ix: Index, D: set<nat>, q: seq<nat>, cur: nat, done: set<Byte>, c: Byte,
                     fs: nat)
    requires Indexed(ix) && Expanding(ix, D, q, cur, done) && Progress(trie, ix, D + Members(q) + {cur})
    requires HoldsDepth(ix, D + Members(q) + {cur}, |ix.labels[cur]|)
    requires cur != 0 && ix.labels[cur] + [c] in ix.ids && c !in done
    requires trie[cur].fail < |trie| && fs < |trie|
    requires ix.labels[fs] == Longest(ix.ids.Keys, ix.labels[trie[cur].fail] + [c])
    ensures var s := ix.ids[ix.labels[cur] + [c]];
      && 0 < s < |trie| && s != fs && s != cur
      && Expanding(ix, D, q + [s], cur, done + {c})
      && Progress(trie[s := Inherit(trie[s], fs, trie[fs])], ix, D + Members<nat>(q + [s]) + {cur})
      && HoldsDepth(ix, D + Members<nat>(q + [s]) + {cur}, |ix.labels[cur]|)
  {
    var s := ix.ids[ix.labels[cur] + [c]];
    ChildIsFresh(ix, D, q, cur, done, c);
    PushChild(ix, D, q, cur, done, c);
    assert ix.labels[cur] != [] && |ix.labels[cur] + [c]| >= 2 by { assert ix.labels[0] == []; }
    FailOfChild(ix.ids.Keys, ix.labels[cur], c);
    assert ix.labels[trie[cur].fail] == Fail(ix.ids.Keys, ix.labels[cur]);
    assert |ix.labels[fs]| <= |ix.labels[cur]| by { assert |Fail(ix.ids.Keys, ix.labels[cur])| < |ix.labels[cur]|; }
    assert fs in D + Members(q) + {cur};
    LinkState(trie, ix, D + Members(q) + {cur}, s, Inherit(trie[s], fs, trie[fs]));
    assert D + Members(q) + {cur} + {s} == D + Members<nat>(q + [s]) + {cur};
  }

  /** What is known right after a state was taken from the queue. */
  lemma Dequeue<N>(trie: seq<State<N>>, ix: Index, D: set<nat>, q: seq<nat>)
    requires Indexed(ix) && Frontier(ix, D, q) && q != [] && Progress(trie, ix, D + Members(q))
    ensures q[0] != 0 && q[0] in Indices(|ix.labels|) - D
    ensures Expanding(ix, D, q[1..], q[0], {})
    ensures Progress(trie, ix, D + Members(q[1..]) + {q[0]})
    ensures HoldsDepth(ix, D + Members(q[1..]) + {q[0]}, |ix.labels[q[0]]|)
  {
    StartExpanding(ix, D, q);
    forall s | 0 <= s < |ix.labels| && |ix.labels[s]| <= |ix.labels[q[0]]| ensures s in D + Members(q) {
      ShallowStatesEnqueued(ix, D, q, s);
    }
    assert D + Members(q) == D + Members(q[1..]) + {q[0]};
  }
}
