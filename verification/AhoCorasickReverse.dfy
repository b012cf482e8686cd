/** The right-to-left automaton: extensions are stored reversed and a file name is read backwards,
    from the last byte that is no version suffix down to the nearest directory separator. */
module ReverseAutomaton {
  import opened Bytes
  import opened SuffixTheory
  import opened ArrayAutomaton

  /** The end of the name once its trailing version digits and dots are dropped. */
  function VersionStart(f: Text, e: nat): (r: nat)
    requires e <= |f|
    ensures r <= e
    ensures forall i | r <= i < e :: IsVersionByte(f[i])
    ensures r > 0 ==> !IsVersionByte(f[r - 1])
  {
    if e == 0 || !IsVersionByte(f[e - 1]) then e else VersionStart(f, e - 1)
  }

  /** The position just after the last directory separator before e. */
  function NameStart(f: Text, e: nat): (r: nat)
    requires e <= |f|
    ensures r <= e
    ensures forall i | r <= i < e :: f[i] != SLASH
    ensures r > 0 ==> f[r - 1] == SLASH
  {
    if e == 0 || f[e - 1] == SLASH then e else NameStart(f, e - 1)
  }

  /** The part of a path that may hold an extension. */
  function Stem(f: Text): Text {
    var e := VersionStart(f, |f|);
    f[NameStart(f, e)..e]
  }

  ghost function Mirrored(exts: set<Text>): set<Text> {
    set p | p in exts :: Reversed(p)
  }

  /** What the backward scan computes, for any extension set at all. */
  ghost predicate AcceptsBackwards(exts: set<Text>, f: Text) {
    Accepts({}, Mirrored(exts), Reversed(Stem(f)))
  }

  lemma ContainsMirrored(exts: set<Text>, t: Text)
    ensures ContainsAny(Mirrored(exts), Reversed(t)) <==> ContainsAny(exts, t)
  {
    if ContainsAny(exts, t) {
      var p :| p in exts && Occurs(p, t);
      var i: nat :| OccursAt(p, t, i);
      OccursReversed(p, t, i);
      assert Reversed(p) in Mirrored(exts) && Occurs(Reversed(p), Reversed(t));
    }
    if ContainsAny(Mirrored(exts), Reversed(t)) {
      var q :| q in Mirrored(exts) && Occurs(q, Reversed(t));
      var p :| p in exts && q == Reversed(p);
      var i: nat :| OccursAt(q, Reversed(t), i);
      OccursReversed(q, Reversed(t), i);
      ReversedTwice(t);
      ReversedTwice(p);
      assert Occurs(p, t);
    }
  }

  lemma NoEmptyMirrored(exts: set<Text>)
    ensures [] in Mirrored(exts) <==> [] in exts
  {
    if [] in Mirrored(exts) {
      var p :| p in exts && Reversed(p) == [];
      assert p == [];
    }
    if [] in exts {
      assert Reversed([]) in Mirrored(exts);
    }
  }

  /** Right on every file name exactly when no empty extension was inserted. */
  lemma ReverseCorrectIffNoEmptyExtension(exts: set<Text>)
    ensures (forall f :: AcceptsBackwards(exts, f) == ContainsAny(exts, Stem(f))) <==> [] !in exts
  {
    NoEmptyMirrored(exts);
    if [] !in exts {
      forall f ensures AcceptsBackwards(exts, f) == ContainsAny(exts, Stem(f)) {
        NotEmptyAnswer(exts, f);
      }
    } else {
      var none: Text := [];
      assert Stem(none) == none && OccursAt([], none, 0) && Occurs([], none);
      assert ContainsAny(exts, Stem(none));
      assert Reversed(Stem(none)) == [];
    }
  }

  lemma NotEmptyAnswer(exts: set<Text>, f: Text)
    requires [] !in exts
    ensures AcceptsBackwards(exts, f) == ContainsAny(exts, Stem(f))
  {
    NoEmptyMirrored(exts);
    assert {} + Mirrored(exts) == Mirrored(exts);
    AcceptsIsMatches({}, Mirrored(exts), Reversed(Stem(f)));
    ContainsMirrored(exts, Stem(f));
    assert !EndsWithAny({}, Reversed(Stem(f)));
  }

  class ReverseAhoCorasickArray {
    const dfa: AhoCorasickArray
    ghost var exts: set<Text>

    ghost predicate Open()
      reads this, dfa
    {
      dfa.Open() && dfa.ix.ends == {} && dfa.ix.mids == Mirrored(exts)
    }

    ghost predicate Built()
      reads this, dfa
    {
      dfa.Built() && dfa.ix.ends == {} && dfa.ix.mids == Mirrored(exts)
    }

    constructor ()
      ensures Open() && exts == {} && fresh(dfa)
    {
      dfa := new AhoCorasickArray();
      exts := {};
    }

    method Insert(pattern: Text)
      requires Open()
      modifies this, dfa
      ensures Open() && exts == old(exts) + {pattern}
    {
      assert Mirrored(exts + {pattern}) == Mirrored(exts) + {Reversed(pattern)};
      dfa.InsertMid(Reversed(pattern));
      exts := exts + {pattern};
    }

    method Build()
      requires Open()
      modifies dfa
      ensures Built()
    {
      var pushes := dfa.Build();
    }

    method Scan(filename: Text) returns (r: bool)
      requires Built()
      ensures r == AcceptsBackwards(exts, filename)
      ensures [] !in exts ==> r == ContainsAny(exts, Stem(filename))
    {
      if [] !in exts { NotEmptyAnswer(exts, filename); }
      if filename == [] {
        return false;
      }
      var i := |filename| - 1;
      while i >= 0 && IsVersionByte(filename[i])
        invariant -1 <= i < |filename|
        invariant VersionStart(filename, i + 1) == VersionStart(filename, |filename|)
      {
        i := i - 1;
      }
      if i < 0 {
        return false;
      }
      r := RunBackwards(filename, i + 1);
    }

    /** The second phase: feed the stem to the automaton, last byte first. */
    method RunBackwards(filename: Text, e: nat) returns (r: bool)
      requires Built() && e == VersionStart(filename, |filename|)
      ensures r == AcceptsBackwards(exts, filename)
    {
      hide Stem, Mirrored, Accepts, Longest, Flag, Complete, Quiet;
      ghost var ix, text, s := dfa.ix, Reversed(Stem(filename)), NameStart(filename, e);
      StemLength(filename);
      ScanStarts(dfa.trie, ix, text);
      var i := e - 1;
      var state: nat := 0;
      while i >= 0
        invariant s - 1 <= i < e
        invariant state < |dfa.trie| && ix.labels[state] == Longest(ix.ids.Keys, text[..e - 1 - i])
        invariant Quiet(ix.ids.Keys, ix.ends, ix.mids, text, e - 1 - i)
      {
        var c := filename[i];
        if c == SLASH {
          break;
        }
        StemBackwards(filename, i);
        ScanRoundByTable(dfa.trie, ix, text, e - 1 - i, state);
        state := dfa.trie[state].next[c];
        NothingFlagged(ix.ids.Keys, ix.labels[state]);
        if dfa.trie[state].isMid {
          return true;
        }
        i := i - 1;
      }
      QuietToTheEnd(ix.ends, ix.mids, text);
      return false;
    }
  }

  lemma StemLength(f: Text)
    ensures var e := VersionStart(f, |f|); |Stem(f)| == e - NameStart(f, e)
  {
  }

  lemma StemBackwards(f: Text, i: nat)
    requires var e := VersionStart(f, |f|); NameStart(f, e) <= i < e
    ensures var e := VersionStart(f, |f|); e - 1 - i < |Stem(f)| && Reversed(Stem(f))[e - 1 - i] == f[i]
  {
  }
}
