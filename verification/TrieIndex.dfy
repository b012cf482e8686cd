/** How a growing vector of trie states relates to the strings it stands for.  State s is labelled
    labels[s] and ids is the inverse; ends and mids are the patterns inserted so far.  An Index is
    ghost bookkeeping of an automaton: no running code looks at it. */
module TrieIndex {
  import opened Bytes
  import opened FiniteSets
  import opened SuffixTheory

  datatype Index = Index(labels: seq<Text>, ids: map<Text, nat>, ends: set<Text>, mids: set<Text>)

  const EMPTY_INDEX := Index([[]], map[[] := 0], {}, {})

  ghost predicate Indexed(ix: Index) {
    && |ix.labels| > 0 && ix.labels[0] == []
    && (forall s | 0 <= s < |ix.labels| :: ix.labels[s] in ix.ids && ix.ids[ix.labels[s]] == s)
    && (forall w | w in ix.ids :: ix.ids[w] < |ix.labels| && ix.labels[ix.ids[w]] == w)
    && PrefixClosed(ix.ids.Keys)
  }

  /** The tree holds the prefixes of the inserted patterns and nothing else. */
  ghost predicate HoldsPatterns(ix: Index) {
    ix.ids.Keys == Prefixes(ix.ends + ix.mids)
  }

  ghost function WithLabel(ix: Index, w: Text): Index {
    ix.(labels := ix.labels + [w], ids := ix.ids[w := |ix.labels|])
  }

  lemma SnocInjective(v: Text, b: Byte, w: Text, c: Byte)
    ensures v + [b] == w + [c] <==> v == w && b == c
    ensures (v + [b])[..|v|] == v
  {
    if v + [b] == w + [c] {
      assert v == (v + [b])[..|v|] == (w + [c])[..|w|] == w;
      assert b == (v + [b])[|v|];
    }
  }

  /** Adding one fresh child keeps the two tables inverse to each other. */
  lemma AddChild(ix: Index, s: nat, c: Byte)
    requires Indexed(ix) && s < |ix.labels| && ix.labels[s] + [c] !in ix.ids
    ensures Indexed(WithLabel(ix, ix.labels[s] + [c]))
  {
    var w := ix.labels[s] + [c];
    var ix' := WithLabel(ix, w);
    forall t | 0 <= t < |ix'.labels| ensures ix'.labels[t] in ix'.ids && ix'.ids[ix'.labels[t]] == t {
      if t < |ix.labels| { assert ix'.labels[t] == ix.labels[t]; }
    }
    forall v | v in ix'.ids ensures ix'.ids[v] < |ix'.labels| && ix'.labels[ix'.ids[v]] == v {
      if v != w { assert v in ix.ids; }
    }
    forall v: Text, b: Byte | v + [b] in ix'.ids.Keys ensures v in ix'.ids.Keys {
      if v + [b] == w {
        SnocInjective(v, b, ix.labels[s], c);
      } else {
        assert v + [b] in ix.ids.Keys;
      }
    }
  }

  lemma NoGrandchildren(ix: Index, w: Text, b: Byte)
    requires Indexed(ix) && w !in ix.ids
    ensures w + [b] !in ix.ids
  {
    if w + [b] in ix.ids.Keys {
      assert false;
    }
  }

  lemma OneMorePattern(ix: Index, ix': Index, pattern: Text)
    requires HoldsPatterns(ix) && ix'.ids.Keys == ix.ids.Keys + Walked(pattern, |pattern|)
    requires ix'.ends == ix.ends && ix'.mids == ix.mids
    ensures HoldsPatterns(ix'.(ends := ix.ends + {pattern})) && HoldsPatterns(ix'.(mids := ix.mids + {pattern}))
  {
    PrefixesOfOneMore(ix.ends + ix.mids, pattern);
    assert ix.ends + ix.mids + {pattern} == ix.ends + {pattern} + ix.mids == ix.ends + (ix.mids + {pattern});
  }

  // ---- Breadth-first traversal -------------------------------------------------------------

  ghost function LastByte(w: Text): Byte
    requires w != []
  {
    w[|w| - 1]
  }

  ghost function Parent(ix: Index, t: nat): (s: nat)
    requires Indexed(ix) && 0 < t < |ix.labels|
    ensures s < |ix.labels| && ix.labels[t] != [] && ix.labels[t] == ix.labels[s] + [LastByte(ix.labels[t])]
  {
    var w := ix.labels[t];
    assert w != [];
    assert w == w[..|w| - 1] + [w[|w| - 1]];
    ix.ids[w[..|w| - 1]]
  }

  /** The queue holds distinct non-root states, shallowest first. */
  ghost predicate QueueOrder(ix: Index, q: seq<nat>) {
    && (forall i | 0 <= i < |q| :: 0 < q[i] < |ix.labels|)
    && (forall i, j | 0 <= i < j < |q| :: q[i] != q[j] && |ix.labels[q[i]]| <= |ix.labels[q[j]]|)
  }

  /** Between two dequeues: D was handled, q is waiting, and a state has been enqueued exactly when
      its parent was handled. */
  ghost predicate Frontier(ix: Index, D: set<nat>, q: seq<nat>)
    requires Indexed(ix)
  {
    && QueueOrder(ix, q)
    && (forall i | 0 <= i < |q| :: |ix.labels[q[i]]| <= |ix.labels[q[0]]| + 1)
    && 0 in D && D <= Indices(|ix.labels|) && D !! Members(q)
    && (forall t {:trigger Parent(ix, t)} | 0 < t < |ix.labels| :: t in D + Members(q) <==> Parent(ix, t) in D)
  }

  /** While the transitions of cur are visited: those over the bytes in done are finished. */
  ghost predicate Expanding(ix: Index, D: set<nat>, q: seq<nat>, cur: nat, done: set<Byte>)
    requires Indexed(ix)
  {
    && QueueOrder(ix, q)
    && cur < |ix.labels|
    && (forall i | 0 <= i < |q| :: |ix.labels[cur]| <= |ix.labels[q[i]]| <= |ix.labels[cur]| + 1)
    && (0 in D || cur == 0) && D <= Indices(|ix.labels|) && D !! Members(q) && cur !in D && cur !in q
    && (forall t {:trigger Parent(ix, t)} | 0 < t < |ix.labels| ::
          t in D + Members(q) + {cur} <==>
          (Parent(ix, t) in D || (Parent(ix, t) == cur && LastByte(ix.labels[t]) in done)))
  }

  lemma StartAtRoot(ix: Index)
    requires Indexed(ix)
    ensures Expanding(ix, {}, [], 0, {})
  {
  }

  lemma StartExpanding(ix: Index, D: set<nat>, q: seq<nat>)
    requires Indexed(ix) && Frontier(ix, D, q) && q != []
    ensures Expanding(ix, D, q[1..], q[0], {})
    ensures Members(q) == Members(q[1..]) + {q[0]}
  {
    hide Parent, PrefixClosed, LastByte;
    assert q == [q[0]] + q[1..];
  }

  lemma OnlyChild(ix: Index, cur: nat, c: Byte, s: nat)
    requires Indexed(ix) && cur < |ix.labels| && ix.labels[cur] + [c] in ix.ids && 0 < s < |ix.labels|
    ensures Parent(ix, s) == cur && LastByte(ix.labels[s]) == c <==> s == ix.ids[ix.labels[cur] + [c]]
  {
    SnocInjective(ix.labels[Parent(ix, s)], LastByte(ix.labels[s]), ix.labels[cur], c);
  }

  lemma ChildIsFresh(ix: Index, D: set<nat>, q: seq<nat>, cur: nat, done: set<Byte>, c: Byte)
    requires Indexed(ix) && Expanding(ix, D, q, cur, done)
    requires c !in done && ix.labels[cur] + [c] in ix.ids
    ensures var t := ix.ids[ix.labels[cur] + [c]];
      0 < t < |ix.labels| && |ix.labels[t]| == |ix.labels[cur]| + 1 && t !in D + Members(q) + {cur}
  {
    var t := ix.ids[ix.labels[cur] + [c]];
    assert ix.labels[t] == ix.labels[cur] + [c];
    OnlyChild(ix, cur, c, t);
  }

  lemma QueueGrows(ix: Index, q: seq<nat>, t: nat)
    requires QueueOrder(ix, q) && 0 < t < |ix.labels| && t !in q
    requires forall i | 0 <= i < |q| :: |ix.labels[q[i]]| <= |ix.labels[t]|
    ensures QueueOrder(ix, q + [t]) && Members<nat>(q + [t]) == Members(q) + {t}
  {
  }

  lemma PushChild(ix: Index, D: set<nat>, q: seq<nat>, cur: nat, done: set<Byte>, c: Byte)
    requires Indexed(ix) && Expanding(ix, D, q, cur, done)
    requires c !in done && ix.labels[cur] + [c] in ix.ids
    ensures var t := ix.ids[ix.labels[cur] + [c]];
      Expanding(ix, D, q + [t], cur, done + {c}) && Members<nat>(q + [t]) == Members(q) + {t}
  {
    var t := ix.ids[ix.labels[cur] + [c]];
    ChildIsFresh(ix, D, q, cur, done, c);
    QueueGrows(ix, q, t);
    forall s | 0 < s < |ix.labels|
      ensures s in D + Members<nat>(q + [t]) + {cur} <==>
          (Parent(ix, s) in D || (Parent(ix, s) == cur && LastByte(ix.labels[s]) in done + {c}))
    {
      OnlyChild(ix, cur, c, s);
      assert s in D || s in Members(q) || (s !in D && s !in Members(q));
    }
  }

  lemma OneDone<T>(all: set<T>, todo: set<T>, c: T)
    requires c in todo && todo <= all
    ensures c !in all - todo && all - (todo - {c}) == (all - todo) + {c}
  {
  }

  lemma SkipByte(ix: Index, D: set<nat>, q: seq<nat>, cur: nat, done: set<Byte>, c: Byte)
    requires Indexed(ix) && Expanding(ix, D, q, cur, done)
    requires ix.labels[cur] + [c] !in ix.ids
    ensures Expanding(ix, D, q, cur, done + {c})
  {
  }

  lemma FinishExpanding(ix: Index, D: set<nat>, q: seq<nat>, cur: nat, done: set<Byte>)
    requires Indexed(ix) && Expanding(ix, D, q, cur, done)
    requires forall c: Byte :: ix.labels[cur] + [c] in ix.ids ==> c in done
    ensures Frontier(ix, D + {cur}, q)
  {
  }

  /** When a state is taken from the queue every state at its depth or above was enqueued before. */
  lemma {:induction false} ShallowStatesEnqueued(ix: Index, D: set<nat>, q: seq<nat>, t: nat)
    requires Indexed(ix) && Frontier(ix, D, q)
    requires t < |ix.labels| && (q == [] || |ix.labels[t]| <= |ix.labels[q[0]]|)
    ensures t in D + Members(q)
    decreases |ix.labels[t]|
  {
    if t != 0 {
      ShallowStatesEnqueued(ix, D, q, Parent(ix, t));
    }
  }

  ghost predicate HoldsDepth(ix: Index, E: set<nat>, depth: nat) {
    forall s | 0 <= s < |ix.labels| && |ix.labels[s]| <= depth :: s in E
  }

  /** An empty queue means that every state was handled. */
  lemma EverythingHandled(ix: Index, D: set<nat>)
    requires Indexed(ix) && Frontier(ix, D, [])
    ensures D == Indices(|ix.labels|) && |D| == |ix.labels|
  {
    forall t | t in Indices(|ix.labels|) ensures t in D {
      ShallowStatesEnqueued(ix, D, [], t);
    }
  }
}
