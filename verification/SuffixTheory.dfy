/** The mathematics behind all three Aho-Corasick automata, stated on the set L of strings
    that label trie states.  L always holds the empty string and is closed under prefixes. */
module SuffixTheory {
  import opened Bytes

  ghost predicate PrefixClosed(L: set<Text>) {
    [] in L && forall u: Text, c: Byte :: u + [c] in L ==> u in L
  }

  /** The strings a trie holds once every pattern of P was inserted. */
  ghost function Prefixes(P: set<Text>): set<Text> {
    {[]} + set p, k | p in P && 0 <= k <= |p| :: p[..k]
  }

  lemma PrefixesMembers(P: set<Text>, w: Text)
    ensures w in Prefixes(P) <==> w == [] || exists p :: p in P && w <= p
  {
    if p :| p in P && w <= p {
      assert w == p[..|w|];
    }
  }

  /** The states visited while the first n bytes of p are walked. */
  ghost function Walked(p: Text, n: nat): set<Text>
    requires n <= |p|
  {
    if n == 0 then {[]} else Walked(p, n - 1) + {p[..n]}
  }

  lemma WalkedMembers(p: Text, n: nat, w: Text)
    requires n <= |p|
    ensures w in Walked(p, n) <==> |w| <= n && w <= p
  {
    if |w| == n && w <= p {
      assert w == p[..n];
    }
  }

  lemma PrefixesOfOneMore(P: set<Text>, p: Text)
    ensures Prefixes(P) + Walked(p, |p|) == Prefixes(P + {p})
  {
    forall w ensures w in Prefixes(P) + Walked(p, |p|) <==> w in Prefixes(P + {p}) {
      WalkedMembers(p, |p|, w);
      PrefixesMembers(P, w);
      PrefixesMembers(P + {p}, w);
    }
  }

  /** The longest suffix of w that labels a trie state. */
  ghost function Longest(L: set<Text>, w: Text): (r: Text)
    requires [] in L
    ensures r in L && |r| <= |w|
  {
    if w in L then w else Longest(L, w[1..])
  }

  lemma LongestIsMaximal(L: set<Text>, w: Text)
    requires [] in L
    ensures IsSuffix(Longest(L, w), w)
    ensures forall u :: u in L && IsSuffix(u, w) ==> |u| <= |Longest(L, w)|
  {
    if w !in L {
      var r := Longest(L, w[1..]);
      LongestIsMaximal(L, w[1..]);
      SuffixTransitive(r, w[1..], w);
      forall u | u in L && IsSuffix(u, w) ensures |u| <= |r| { SuffixesNest(u, w[1..], w); }
    }
  }

  lemma LongestIsUnique(L: set<Text>, w: Text, r: Text)
    requires [] in L && r in L && IsSuffix(r, w)
    requires forall u :: u in L && IsSuffix(u, w) ==> |u| <= |r|
    ensures r == Longest(L, w)
  {
    LongestIsMaximal(L, w);
  }

  /** Where the failure link of the state labelled w must point: the longest proper suffix in L. */
  ghost function Fail(L: set<Text>, w: Text): (r: Text)
    requires [] in L && w != []
    ensures r in L && |r| < |w|
  {
    Longest(L, w[1..])
  }

  lemma SuffixSnoc(u: Text, w: Text, c: Byte)
    ensures IsSuffix(u + [c], w + [c]) <==> IsSuffix(u, w)
  {
    if |u| <= |w| {
      assert (w + [c])[|w| - |u|..] == w[|w| - |u|..] + [c];
      if w[|w| - |u|..] + [c] == u + [c] {
        assert w[|w| - |u|..] == (u + [c])[..|u|];
      }
    }
  }

  lemma SuffixEndsAlike(r: Text, w: Text, c: Byte)
    requires r != [] && IsSuffix(r, w + [c])
    ensures r == r[..|r| - 1] + [c] && IsSuffix(r[..|r| - 1], w)
  {
    assert r[|r| - 1] == (w + [c])[|w|];
    SuffixSnoc(r[..|r| - 1], w, c);
  }

  /** Reading one more byte only needs the longest suffix so far, not the whole text. */
  lemma LongestStep(L: set<Text>, w: Text, c: Byte)
    requires PrefixClosed(L)
    ensures Longest(L, w + [c]) == Longest(L, Longest(L, w) + [c])
  {
    var v := Longest(L, w);
    var r := Longest(L, w + [c]);
    LongestIsMaximal(L, w);
    LongestIsMaximal(L, w + [c]);
    SuffixSnoc(v, w, c);
    assert IsSuffix(r, v + [c]) by {
      if r != [] {
        SuffixEndsAlike(r, w, c);
        SuffixesNest(r, v + [c], w + [c]);
      }
    }
    forall u | u in L && IsSuffix(u, v + [c])
      ensures |u| <= |r|
    {
      SuffixTransitive(u, v + [c], w + [c]);
    }
    LongestIsUnique(L, v + [c], r);
  }

  /** A missing transition may be answered from the failure state. */
  lemma MissGoesToFail(L: set<Text>, w: Text, c: Byte)
    requires PrefixClosed(L) && w != [] && w + [c] !in L
    ensures Longest(L, w + [c]) == Longest(L, Fail(L, w) + [c])
  {
    assert (w + [c])[1..] == w[1..] + [c];
    LongestStep(L, w[1..], c);
  }

  /** The failure link of a child comes from the failure state of its parent. */
  lemma FailOfChild(L: set<Text>, w: Text, c: Byte)
    requires PrefixClosed(L)
    ensures w == [] ==> Fail(L, w + [c]) == []
    ensures w != [] ==> Fail(L, w + [c]) == Longest(L, Fail(L, w) + [c])
  {
    assert (w + [c])[1..] == if w == [] then [] else w[1..] + [c];
    if w != [] {
      LongestStep(L, w[1..], c);
    }
  }

  /** The value of a match flag after `build`: own pattern, or inherited over the failure link.
      States of depth one inherit nothing. */
  ghost predicate Flag(L: set<Text>, P: set<Text>, w: Text)
    requires [] in L
    decreases |w|
  {
    w in P || (|w| >= 2 && Flag(L, P, Fail(L, w)))
  }

  ghost predicate EndsWithAny(P: set<Text>, t: Text) {
    exists p :: p in P && IsSuffix(p, t)
  }

  ghost predicate ContainsAny(P: set<Text>, t: Text) {
    exists p :: p in P && Occurs(p, t)
  }

  /** Without an empty pattern, a flag says exactly that some pattern is a suffix of the label. */
  lemma {:induction false} FlagMeansSuffix(L: set<Text>, P: set<Text>, w: Text)
    requires [] in L && P <= L && [] !in P
    ensures Flag(L, P, w) <==> EndsWithAny(P, w)
    decreases |w|
  {
    if w in P {
      assert IsSuffix(w, w);
    } else if |w| <= 1 {
      assert forall p | IsSuffix(p, w) :: p == [] || p == w;
    } else {
      var f := Fail(L, w);
      FlagMeansSuffix(L, P, f);
      LongestIsMaximal(L, w[1..]);
      forall p | p in P && IsSuffix(p, w) ensures IsSuffix(p, f) {
        SuffixesNest(p, w[1..], w);
        SuffixesNest(p, f, w[1..]);
      }
      forall p | p in P && IsSuffix(p, f) ensures IsSuffix(p, w) {
        SuffixTransitive(f, w[1..], w);
        SuffixTransitive(p, f, w);
      }
    }
  }

  /** No pattern is lost by looking at the longest trie suffix only. */
  lemma LongestKeepsPatterns(L: set<Text>, P: set<Text>, t: Text)
    requires [] in L && P <= L
    ensures EndsWithAny(P, t) <==> EndsWithAny(P, Longest(L, t))
  {
    var v := Longest(L, t);
    LongestIsMaximal(L, t);
    forall p | p in P && IsSuffix(p, t) ensures IsSuffix(p, v) { SuffixesNest(p, v, t); }
    forall p | p in P && IsSuffix(p, v) ensures IsSuffix(p, t) { SuffixTransitive(p, v, t); }
  }

  /** What the scanning loops compute, for any pattern sets at all. */
  ghost predicate Accepts(ends: set<Text>, mids: set<Text>, text: Text) {
    var L := Prefixes(ends + mids);
    || (exists k :: 0 < k <= |text| && Flag(L, mids, Longest(L, text[..k])))
    || (text != [] && Flag(L, ends, Longest(L, text)))
  }

  /** What the scanning loops are for. */
  ghost predicate Matches(ends: set<Text>, mids: set<Text>, text: Text) {
    ContainsAny(mids, text) || EndsWithAny(ends, text)
  }

  /** In other words: a mid pattern stands somewhere between what is before it and what is behind it, or an
      end-anchored one has nothing behind it. */
  lemma MatchesCutsTheText(ends: set<Text>, mids: set<Text>, text: Text)
    ensures Matches(ends, mids, text) <==>
      || (exists front: Text, p: Text, back: Text :: p in mids && text == front + p + back)
      || (exists front: Text, p: Text :: p in ends && text == front + p)
  {
    forall front: Text, p: Text, back: Text | p in mids && text == front + p + back
      ensures ContainsAny(mids, text)
    {
      assert text[|front|..|front| + |p|] == p;
      assert OccursAt(p, text, |front|) && Occurs(p, text);
    }
    forall front: Text, p: Text | p in ends && text == front + p ensures EndsWithAny(ends, text) {
      assert text[|text| - |p|..] == p;
      assert IsSuffix(p, text);
    }
    if p :| p in mids && Occurs(p, text) {
      var i: nat :| OccursAt(p, text, i);
      assert text == text[..i] + p + text[i + |p|..];
    }
    if p :| p in ends && IsSuffix(p, text) {
      assert text == text[..|text| - |p|] + p;
    }
  }

  lemma PatternsArePrefixes(P: set<Text>)
    ensures P <= Prefixes(P) && PrefixClosed(Prefixes(P))
  {
    forall p | p in P ensures p in Prefixes(P) { assert p == p[..|p|]; }
    forall u: Text, c: Byte | u + [c] in Prefixes(P) ensures u in Prefixes(P) {
      var p, k :| p in P && 0 <= k <= |p| && u + [c] == p[..k];
      assert u == (u + [c])[..k - 1] == p[..k - 1];
    }
  }

  lemma ContainsMeansPrefixEnds(P: set<Text>, t: Text)
    requires [] !in P
    ensures ContainsAny(P, t) <==> exists k :: 0 < k <= |t| && EndsWithAny(P, t[..k])
  {
    if ContainsAny(P, t) {
      var p :| p in P && Occurs(p, t);
      var i: nat :| OccursAt(p, t, i);
      OccursAsPrefixSuffix(p, t, i);
      assert EndsWithAny(P, t[..i + |p|]);
    }
    if k :| 0 < k <= |t| && EndsWithAny(P, t[..k]) {
      var p :| p in P && IsSuffix(p, t[..k]);
      PrefixSuffixOccurs(p, t, k);
      assert Occurs(p, t);
    }
  }

  /** Without an empty pattern the scan answers the substring/suffix question exactly. */
  lemma AcceptsIsMatches(ends: set<Text>, mids: set<Text>, text: Text)
    requires [] !in ends + mids
    ensures Accepts(ends, mids, text) == Matches(ends, mids, text)
  {
    var L := Prefixes(ends + mids);
    PatternsArePrefixes(ends + mids);
    forall t ensures Flag(L, mids, Longest(L, t)) == EndsWithAny(mids, t) {
      FlagMeansSuffix(L, mids, Longest(L, t));
      LongestKeepsPatterns(L, mids, t);
    }
    FlagMeansSuffix(L, ends, Longest(L, text));
    LongestKeepsPatterns(L, ends, text);
    ContainsMeansPrefixEnds(mids, text);
    if text == [] {
      assert forall p | IsSuffix(p, text) :: p == [];
    }
  }

  /** The automata answer the question for every text exactly when no empty pattern was inserted:
      with one, the empty text is a counterexample. */
  lemma CorrectIffNoEmptyPattern(ends: set<Text>, mids: set<Text>)
    ensures (forall text :: Accepts(ends, mids, text) == Matches(ends, mids, text)) <==> [] !in ends + mids
  {
    if [] !in ends + mids {
      forall text ensures Accepts(ends, mids, text) == Matches(ends, mids, text) {
        AcceptsIsMatches(ends, mids, text);
      }
    } else {
      var none: Text := [];
      assert OccursAt([], none, 0);
      assert Occurs([], none) && IsSuffix([], none);
      assert Matches(ends, mids, none) && !Accepts(ends, mids, none);
    }
  }

  lemma NothingFlagged(L: set<Text>, w: Text)
    requires [] in L
    ensures !Flag(L, {}, w)
    decreases |w|
  {
    if |w| >= 2 { NothingFlagged(L, Fail(L, w)); }
  }

  lemma {:induction false} MorePatternsMoreFlags(L: set<Text>, P: set<Text>, Q: set<Text>, w: Text)
    requires [] in L && P <= Q && Flag(L, P, w)
    ensures Flag(L, Q, w)
    decreases |w|
  {
    if w !in P {
      MorePatternsMoreFlags(L, P, Q, Fail(L, w));
    }
  }

  lemma EmptyPatternAddsNoPrefix(P: set<Text>)
    ensures Prefixes(P - {[]}) == Prefixes(P)
  {
    forall w ensures w in Prefixes(P - {[]}) <==> w in Prefixes(P) {
      PrefixesMembers(P, w);
      PrefixesMembers(P - {[]}, w);
    }
  }

  /** An empty pattern can add answers and takes none away. */
  lemma EmptyPatternTakesNothing(ends: set<Text>, mids: set<Text>, text: Text)
    requires Accepts(ends - {[]}, mids - {[]}, text)
    ensures Accepts(ends, mids, text)
  {
    var L := Prefixes(ends + mids);
    EmptyPatternAddsNoPrefix(ends + mids);
    assert ends + mids - {[]} == (ends - {[]}) + (mids - {[]});
    if k :| 0 < k <= |text| && Flag(L, mids - {[]}, Longest(L, text[..k])) {
      MorePatternsMoreFlags(L, mids - {[]}, mids, Longest(L, text[..k]));
    } else {
      MorePatternsMoreFlags(L, ends - {[]}, ends, Longest(L, text));
    }
  }

  /** Without end-anchored patterns an answer stays when the text goes on. */
  lemma AcceptedPrefix(mids: set<Text>, text: Text, more: Text)
    requires Accepts({}, mids, text) && text <= more
    ensures Accepts({}, mids, more)
  {
    var L := Prefixes({} + mids);
    NothingFlagged(L, Longest(L, text));
    var k :| 0 < k <= |text| && Flag(L, mids, Longest(L, text[..k]));
    assert more[..k] == text[..k];
  }

  /** Nothing was accepted while the first n bytes were read. */
  ghost predicate Quiet(L: set<Text>, ends: set<Text>, mids: set<Text>, text: Text, n: nat)
    requires [] in L && n <= |text|
  {
    && (forall k | 0 < k <= n :: !Flag(L, mids, Longest(L, text[..k])))
    && (0 < n == |text| ==> !Flag(L, ends, Longest(L, text)))
  }

  /** One round of a scanning loop: from the state of the first n bytes to the verdict after one more. */
  lemma ScanRound(ends: set<Text>, mids: set<Text>, text: Text, n: nat)
    requires n < |text| && var L := Prefixes(ends + mids); [] in L && Quiet(L, ends, mids, text, n)
    ensures var L := Prefixes(ends + mids);
      var v := Longest(L, Longest(L, text[..n]) + [text[n]]);
      && v == Longest(L, text[..n + 1])
      && (Flag(L, mids, v) || (n == |text| - 1 && Flag(L, ends, v)) ==> Accepts(ends, mids, text))
      && (!Flag(L, mids, v) && !(n == |text| - 1 && Flag(L, ends, v)) ==> Quiet(L, ends, mids, text, n + 1))
  {
    var L := Prefixes(ends + mids);
    PatternsArePrefixes(ends + mids);
    TakeSnoc(text, n);
    LongestStep(L, text[..n], text[n]);
    if n == |text| - 1 {
      assert text[..n + 1] == text;
    }
  }

  lemma QuietToTheEnd(ends: set<Text>, mids: set<Text>, text: Text)
    requires var L := Prefixes(ends + mids); [] in L && Quiet(L, ends, mids, text, |text|)
    ensures !Accepts(ends, mids, text)
  {
  }
}
