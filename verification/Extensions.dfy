/** The production extension matcher, which compares from the back of the file name, and how it relates
    to the three automata built from the same extension list. */
module Extensions {
  import opened Bytes
  import opened FiniteSets
  import opened SuffixTheory
  import opened ReverseAutomaton
  import HashMapAutomaton
  import ArrayAutomaton

  /** What the matcher looks for: the extension somewhere after the first byte, at the very end or
      followed by a dot and nothing but version digits and dots. */
  ghost predicate ExtensionAt(f: Text, ext: Text, p: nat) {
    && p >= 1 && OccursAt(ext, f, p)
    && (p + |ext| == |f| || (f[p + |ext|] == DOT && forall i | p + |ext| <= i < |f| :: IsVersionByte(f[i])))
  }

  ghost predicate HasExtension(f: Text, ext: Text) {
    ext != [] && exists p: nat :: ExtensionAt(f, ext, p)
  }

  ghost predicate HasAnyExtension(f: Text, exts: seq<Text>) {
    exists i :: 0 <= i < |exts| && HasExtension(f, exts[i])
  }

  // ---- Which names the matcher takes --------------------------------------------------------------

  /** Any name that ends in the extension is taken, as long as something stands in front. */
  lemma NameWithExtension(stem: Text, ext: Text)
    requires stem != [] && ext != []
    ensures HasExtension(stem + ext, ext)
  {
    var f := stem + ext;
    assert f[|stem|..|stem| + |ext|] == ext;
    assert ExtensionAt(f, ext, |stem|);
  }

  /** So is a name that goes on with a dot and any version. */
  lemma NameWithVersion(stem: Text, ext: Text, v: Text)
    requires stem != [] && ext != [] && forall i | 0 <= i < |v| :: v[i] == 46 || 48 <= v[i] <= 57
    ensures HasExtension(stem + ext + [46] + v, ext)
  {
    var f, n := stem + ext + [46] + v, |stem| + |ext|;
    assert f[|stem|..n] == ext && f[n] == 46;
    forall i | n <= i < |f| ensures IsVersionByte(f[i]) {
      assert i > n ==> f[i] == v[i - n - 1];
    }
    assert ExtensionAt(f, ext, |stem|);
  }

  /** Every name that is taken is one of these. */
  lemma TakenName(f: Text, ext: Text) returns (stem: Text, v: Text)
    requires HasExtension(f, ext)
    ensures ext != [] && stem != [] && forall i | 0 <= i < |v| :: v[i] == 46 || 48 <= v[i] <= 57
    ensures f == stem + ext || f == stem + ext + [46] + v
  {
    var p: nat :| ExtensionAt(f, ext, p);
    var n := p + |ext|;
    stem := f[..p];
    assert f == f[..p] + f[p..n] + f[n..];
    if n == |f| {
      v := [];
      assert f[n..] == [];
    } else {
      v := f[n + 1..];
      assert f[n..] == [46] + v;
      forall i | 0 <= i < |v| ensures v[i] == 46 || 48 <= v[i] <= 57 {
        assert IsVersionByte(f[n + 1 + i]);
      }
    }
  }

  /** Compares ext with the bytes of f that end k bytes before the end, both read backwards. */
  method IteratorsAreTheSame(f: Text, k: nat, ext: Text) returns (r: bool)
    requires k + |ext| <= |f|
    ensures r == OccursAt(ext, f, |f| - k - |ext|)
  {
    ghost var p := |f| - k - |ext|;
    OccursPointwise(ext, f, p);
    for i := 0 to |ext|
      invariant forall m | |ext| - i <= m < |ext| :: f[p + m] == ext[m]
    {
      if f[|f| - 1 - (k + i)] != ext[|ext| - 1 - i] {
        assert f[p + (|ext| - 1 - i)] != ext[|ext| - 1 - i];
        return false;
      }
    }
    return true;
  }

  /** Giving up at the first dot-followed occurrence with a foreign byte behind it loses nothing: that
      byte stands behind every occurrence further left as well. */
  lemma ForeignByteIsFinal(f: Text, ext: Text, p: nat, i: nat)
    requires ext != [] && p + |ext| <= i < |f| && !IsVersionByte(f[i])
    requires forall q | p < q :: !ExtensionAt(f, ext, q)
    ensures !HasExtension(f, ext)
  {
    forall q: nat ensures !ExtensionAt(f, ext, q) {
    }
  }

  method FilenameHasExtension(f: Text, ext: Text) returns (r: bool)
    ensures r == HasExtension(f, ext)
  {
    if f == [] || ext == [] || |ext| > |f| {
      return false;
    }
    var k := 0;
    while k != |f| - |ext|
      invariant 0 <= k <= |f| - |ext|
      invariant forall q | q > |f| - k - |ext| :: !ExtensionAt(f, ext, q)
    {
      var p := |f| - k - |ext|;
      if f[|f| - 1 - k] == ext[|ext| - 1] {
        var same := IteratorsAreTheSame(f, k, ext);
        if same {
          if k != 0 && f[|f| - k] != DOT {
            k := k + 1;
            continue;
          }
          if k == 0 {
            assert ExtensionAt(f, ext, p);
            return true;
          }
          var after := k - 1;
          while after != -1
            invariant -1 <= after < k
            invariant forall i | p + |ext| <= i < |f| - 1 - after :: IsVersionByte(f[i])
          {
            if !IsVersionByte(f[|f| - 1 - after]) {
              ForeignByteIsFinal(f, ext, p, |f| - 1 - after);
              return false;
            }
            after := after - 1;
          }
          assert ExtensionAt(f, ext, p);
          return true;
        }
      } else {
        OccursPointwise(ext, f, p);
        assert f[p + (|ext| - 1)] != ext[|ext| - 1];
      }
      k := k + 1;
    }
    return false;
  }

  method FilenameHasAnyOfExtensions(f: Text, exts: seq<Text>) returns (r: bool)
    ensures r == HasAnyExtension(f, exts)
    ensures r <==> exists i :: 0 <= i < |exts| && HasExtension(f, exts[i])
  {
    for i := 0 to |exts|
      invariant forall j | 0 <= j < i :: !HasExtension(f, exts[j])
    {
      var has := FilenameHasExtension(f, exts[i]);
      if has {
        return true;
      }
    }
    return false;
  }

  // ---- The automata built from an extension list ---------------------------------------------

  ghost function Dotted(exts: seq<Text>): set<Text> {
    set e | e in exts :: e + [DOT]
  }

  lemma OneMoreExtension(exts: seq<Text>, i: nat)
    requires i < |exts|
    ensures Members(exts[..i + 1]) == Members(exts[..i]) + {exts[i]}
    ensures Dotted(exts[..i + 1]) == Dotted(exts[..i]) + {exts[i] + [DOT]}
  {
    assert exts[..i + 1] == exts[..i] + [exts[i]];
  }

  method BuildMatcherHashMap(exts: seq<Text>) returns (ac: HashMapAutomaton.AhoCorasickHashMap)
    ensures fresh(ac) && ac.Built() && ac.ix.ends == Members(exts) && ac.ix.mids == Dotted(exts)
  {
    ac := new HashMapAutomaton.AhoCorasickHashMap();
    for i := 0 to |exts|
      invariant fresh(ac) && ac.Open() && ac.ix.ends == Members(exts[..i]) && ac.ix.mids == Dotted(exts[..i])
    {
      OneMoreExtension(exts, i);
      ac.InsertEndAnchored(exts[i]);
      ac.InsertMid(exts[i] + [DOT]);
    }
    assert exts[..|exts|] == exts;
    var pushes := ac.Build();
  }

  method BuildMatcherArray(exts: seq<Text>) returns (ac: ArrayAutomaton.AhoCorasickArray)
    ensures fresh(ac) && ac.Built() && ac.ix.ends == Members(exts) && ac.ix.mids == Dotted(exts)
  {
    ac := new ArrayAutomaton.AhoCorasickArray();
    for i := 0 to |exts|
      invariant fresh(ac) && ac.Open() && ac.ix.ends == Members(exts[..i]) && ac.ix.mids == Dotted(exts[..i])
    {
      OneMoreExtension(exts, i);
      ac.InsertEndAnchored(exts[i]);
      ac.InsertMid(exts[i] + [DOT]);
    }
    assert exts[..|exts|] == exts;
    var pushes := ac.Build();
  }

  method BuildMatcherArrayReverse(exts: seq<Text>) returns (ac: ReverseAhoCorasickArray)
    ensures fresh(ac) && fresh(ac.dfa) && ac.Built() && ac.exts == Members(exts)
  {
    ac := new ReverseAhoCorasickArray();
    for i := 0 to |exts|
      invariant fresh(ac) && fresh(ac.dfa) && ac.Open() && ac.exts == Members(exts[..i])
    {
      OneMoreExtension(exts, i);
      ac.Insert(exts[i]);
    }
    assert exts[..|exts|] == exts;
    ac.Build();
  }

  /** What the forward automata of a list answer, whatever the list holds. */
  ghost predicate AcceptedForward(f: Text, exts: seq<Text>) {
    Accepts(Members(exts), Dotted(exts), f)
  }

  /** What the backward automaton answers. */
  ghost predicate AcceptedBackward(f: Text, exts: seq<Text>) {
    AcceptsBackwards(Members(exts), f)
  }

  // ---- What the automata answer, spelled out ---------------------------------------------------------

  /** For a list without an empty extension, the forward automata answer whether some extension stands at the
      end of the name or anywhere in front of a dot. */
  lemma ForwardAnswer(f: Text, exts: seq<Text>)
    requires [] !in exts
    ensures AcceptedForward(f, exts) <==> exists e: Text, i: nat :: e in exts && StandsAt(f, e, i)
  {
    hide Accepts;
    NoEmptyPatterns(exts);
    AcceptsIsMatches(Members(exts), Dotted(exts), f);
    if e: Text, i: nat :| e in exts && StandsAt(f, e, i) {
      OccurrenceAnswered(f, exts, e, i);
    }
    if AcceptedForward(f, exts) {
      if m :| m in Dotted(exts) && Occurs(m, f) {
        var e :| e in exts && m == e + [DOT];
        var i: nat :| OccursAt(m, f, i);
        assert f[i..i + |e|] == m[..|e|] == e && f[i + |e|] == m[|e|] == 46;
        assert StandsAt(f, e, i);
      } else {
        var e :| e in Members(exts) && IsSuffix(e, f);
        assert f[|f| - |e|..|f|] == e;
        assert StandsAt(f, e, |f| - |e|);
      }
    }
  }

  /** The extension stands there, at the end or in front of a dot. */
  predicate StandsAt(f: Text, e: Text, i: nat) {
    i + |e| <= |f| && f[i..i + |e|] == e && (i + |e| == |f| || f[i + |e|] == 46)
  }

  lemma OccurrenceAnswered(f: Text, exts: seq<Text>, e: Text, i: nat)
    requires e in exts && StandsAt(f, e, i)
    ensures Matches(Members(exts), Dotted(exts), f)
  {
    if i + |e| == |f| {
      assert f[|f| - |e|..] == f[i..i + |e|];
      assert IsSuffix(e, f) && e in Members(exts);
    } else {
      assert f[i..i + |e| + 1] == e + [DOT];
      assert OccursAt(e + [DOT], f, i) && Occurs(e + [DOT], f) && e + [DOT] in Dotted(exts);
    }
  }

  /** A name with its version cut off, and then everything up to the last separator. */
  lemma StemOfName(directory: Text, stem: Text, v: Text)
    requires directory == [] || directory[|directory| - 1] == 47
    requires 47 !in stem && forall i | 0 <= i < |v| :: v[i] == 46 || 48 <= v[i] <= 57
    requires stem != [] ==> var last := stem[|stem| - 1]; !(last == 46 || 48 <= last <= 57)
    ensures Stem(directory + stem + v) == stem
  {
    hide VersionStart, NameStart;
    var f, s, e := directory + stem + v, |directory|, |directory| + |stem|;
    forall i | e <= i < |f| ensures IsVersionByte(f[i]) {
      assert f[i] == v[i - e];
    }
    assert stem != [] ==> f[e - 1] == stem[|stem| - 1];
    assert stem == [] && directory != [] ==> f[e - 1] == 47;
    VersionStartIs(f, e);
    forall i | s <= i < e ensures f[i] != SLASH {
      assert f[i] == stem[i - s];
    }
    assert directory != [] ==> f[s - 1] == 47;
    NameStartIs(f, s, e);
    assert f[s..e] == stem;
  }

  /** Every name is put together so. */
  lemma PartsOfName(f: Text) returns (directory: Text, v: Text)
    ensures directory == [] || directory[|directory| - 1] == 47
    ensures 47 !in Stem(f) && forall i | 0 <= i < |v| :: v[i] == 46 || 48 <= v[i] <= 57
    ensures Stem(f) != [] ==> var last := Stem(f)[|Stem(f)| - 1]; !(last == 46 || 48 <= last <= 57)
    ensures f == directory + Stem(f) + v
  {
    hide VersionStart, NameStart;
    var e := VersionStart(f, |f|);
    var s := NameStart(f, e);
    directory, v := f[..s], f[e..];
    CutInThree(f, s, e);
    forall i | 0 <= i < |v| ensures v[i] == 46 || 48 <= v[i] <= 57 {
      assert IsVersionByte(f[e + i]);
    }
    StemByBytes(f);
  }

  lemma CutInThree(f: Text, s: nat, e: nat)
    requires s <= e <= |f|
    ensures f == f[..s] + f[s..e] + f[e..]
  {
  }

  lemma StemByBytes(f: Text)
    ensures 47 !in Stem(f)
    ensures Stem(f) != [] ==> var last := Stem(f)[|Stem(f)| - 1]; !(last == 46 || 48 <= last <= 57)
  {
    var e := VersionStart(f, |f|);
    var s := NameStart(f, e);
    assert forall i | 0 <= i < e - s :: Stem(f)[i] == f[s + i];
  }

  /** The backward automaton takes every name that holds one of its extensions in front of the version and
      behind the last separator before it. */
  lemma FoundBackward(directory: Text, left: Text, e: Text, right: Text, v: Text, exts: seq<Text>)
    requires [] !in exts && e in exts && (directory == [] || directory[|directory| - 1] == 47)
    requires 47 !in left + e + right && forall i | 0 <= i < |v| :: v[i] == 46 || 48 <= v[i] <= 57
    requires e != [] ==> var last := (left + e + right)[|left + e + right| - 1]; !(last == 46 || 48 <= last <= 57)
    ensures AcceptedBackward(directory + (left + e + right) + v, exts)
  {
    hide Stem, AcceptsBackwards;
    var stem := left + e + right;
    StemOfName(directory, stem, v);
    assert stem[|left|..|left| + |e|] == e;
    assert OccursAt(e, stem, |left|) && Occurs(e, stem) && e in Members(exts);
    NotEmptyAnswer(Members(exts), directory + stem + v);
  }

  /** And it takes no other. */
  lemma OnlyFoundBackward(f: Text, exts: seq<Text>)
      returns (directory: Text, left: Text, e: Text, right: Text, v: Text)
    requires [] !in exts && AcceptedBackward(f, exts)
    ensures e in exts && f == directory + (left + e + right) + v
    ensures directory == [] || directory[|directory| - 1] == 47
    ensures 47 !in left + e + right && forall i | 0 <= i < |v| :: v[i] == 46 || 48 <= v[i] <= 57
    ensures e != [] ==> var last := (left + e + right)[|left + e + right| - 1]; !(last == 46 || 48 <= last <= 57)
  {
    hide Stem, AcceptsBackwards;
    NotEmptyAnswer(Members(exts), f);
    e :| e in Members(exts) && Occurs(e, Stem(f));
    var i: nat :| OccursAt(e, Stem(f), i);
    left, right := Stem(f)[..i], Stem(f)[i + |e|..];
    CutInThree(Stem(f), i, i + |e|);
    directory, v := PartsOfName(f);
  }

  // ---- What is missed -------------------------------------------------------------------------------

  /** Whatever the production matcher accepts, the two forward automata accept. */
  lemma AcceptedByForwardAutomata(f: Text, exts: seq<Text>)
    requires HasAnyExtension(f, exts)
    ensures AcceptedForward(f, exts) && Matches(Members(exts), Dotted(exts), f)
  {
    hide Accepts;
    var ends, mids := Members(exts) - {[]}, Dotted(exts) - {[]};
    var i :| 0 <= i < |exts| && HasExtension(f, exts[i]);
    var ext := exts[i];
    var p: nat :| ExtensionAt(f, ext, p);
    if p + |ext| == |f| {
      assert IsSuffix(ext, f) && ext in ends;
    } else {
      assert f[p..p + |ext| + 1] == ext + [DOT];
      assert OccursAt(ext + [DOT], f, p) && Occurs(ext + [DOT], f) && ext + [DOT] in Dotted(exts) && |ext + [DOT]| > 0;
    }
    AcceptsIsMatches(ends, mids, f);
    EmptyPatternTakesNothing(Members(exts), Dotted(exts), f);
  }

  lemma VersionStartIs(f: Text, e: nat)
    requires e <= |f| && (forall i | e <= i < |f| :: IsVersionByte(f[i])) && (e > 0 ==> !IsVersionByte(f[e - 1]))
    ensures VersionStart(f, |f|) == e
  {
    hide IsVersionByte, VersionStart;
  }

  lemma NameStartIs(f: Text, s: nat, e: nat)
    requires s <= e <= |f| && (forall i | s <= i < e :: f[i] != SLASH) && (s > 0 ==> f[s - 1] == SLASH)
    ensures NameStart(f, e) == s
  {
    hide NameStart;
  }

  /** Where an extension stands as the matcher wants it, the stem of the name ends in its stem. */
  lemma StemOfOccurrence(f: Text, ext: Text, p: nat)
    requires ExtensionAt(f, ext, p) && Stem(ext) != []
    ensures IsSuffix(Stem(ext), Stem(f))
  {
    hide IsVersionByte, VersionStart, NameStart, IsSuffix, OccursAt;
    var v := VersionStart(ext, |ext|);
    var n := NameStart(ext, v);
    VersionOfOccurrence(f, ext, p);
    NameOfOccurrence(f, ext, p, n, v);
    LaterStart(f, NameStart(f, p + v), p + n, p + v);
  }

  lemma NameOfOccurrence(f: Text, ext: Text, p: nat, n: nat, v: nat)
    requires OccursAt(ext, f, p) && n <= v <= |ext| && forall i | n <= i < v :: ext[i] != SLASH
    ensures p + v <= |f| && NameStart(f, p + v) <= p + n && f[p + n..p + v] == ext[n..v]
  {
    hide NameStart;
    OccursPointwise(ext, f, p);
    forall i | p + n <= i < p + v ensures f[i] == ext[i - p] {
      assert f[p + (i - p)] == ext[i - p];
    }
  }

  lemma LaterStart(f: Text, s: nat, m: nat, e: nat)
    requires s <= m <= e <= |f|
    ensures IsSuffix(f[m..e], f[s..e])
  {
    assert f[s..e][m - s..] == f[m..e];
  }

  lemma VersionOfOccurrence(f: Text, ext: Text, p: nat)
    requires ExtensionAt(f, ext, p) && VersionStart(ext, |ext|) > 0
    ensures VersionStart(f, |f|) == p + VersionStart(ext, |ext|)
  {
    hide IsVersionByte, VersionStart;
    var v := VersionStart(ext, |ext|);
    OccursPointwise(ext, f, p);
    assert f[p + (v - 1)] == ext[v - 1];
    DotIsVersionByte();
    forall i | p + v <= i < |f| ensures IsVersionByte(f[i]) {
      assert i < p + |ext| ==> f[p + (i - p)] == ext[i - p];
    }
    VersionStartIs(f, p + v);
  }

  lemma DotIsVersionByte()
    ensures IsVersionByte(DOT) && !IsVersionByte(SLASH)
  {
  }

  /** A separator in front of a name leaves the stem alone. */
  lemma StemBehindSlash(ext: Text)
    ensures Stem([SLASH] + ext) == Stem(ext)
  {
    hide IsVersionByte, VersionStart, NameStart;
    var f := [SLASH] + ext;
    var v := VersionStart(ext, |ext|);
    var n := NameStart(ext, v);
    DotIsVersionByte();
    assert v > 0 ==> f[v] == ext[v - 1];
    forall i | v + 1 <= i < |f| ensures IsVersionByte(f[i]) {
      assert f[i] == ext[i - 1];
    }
    VersionStartIs(f, v + 1);
    assert n > 0 ==> f[n] == ext[n - 1];
    forall i | n + 1 <= i < v + 1 ensures f[i] != SLASH {
      assert f[i] == ext[i - 1];
    }
    NameStartIs(f, n + 1, v + 1);
    assert f[n + 1..v + 1] == ext[n..v];
  }

  lemma AcceptedWithTheStem(f: Text, ext: Text, p: nat, exts: seq<Text>)
    requires ExtensionAt(f, ext, p) && AcceptedBackward(ext, exts)
    ensures AcceptedBackward(f, exts)
  {
    hide Accepts, Stem, ExtensionAt, Mirrored;
    var stem, text := Reversed(Stem(ext)), Reversed(Stem(f));
    if stem == [] {
      NothingInNothing(Mirrored(Members(exts)));
    } else {
      StemOfOccurrence(f, ext, p);
      assert stem <= text;
      AcceptedPrefix(Mirrored(Members(exts)), stem, text);
    }
  }

  lemma NothingInNothing(mids: set<Text>)
    ensures !Accepts({}, mids, [])
  {
  }

  lemma FoundBehindSlash(exts: seq<Text>, e: Text)
    requires e in exts && e != []
    ensures HasAnyExtension([SLASH] + e, exts)
  {
    var f := [SLASH] + e;
    var i :| 0 <= i < |exts| && exts[i] == e;
    assert OccursAt(e, f, 1);
    assert ExtensionAt(f, exts[i], 1);
  }

  /** The backward automaton of a list, of any list, misses no file that the matcher accepts exactly when
      it accepts the extensions themselves. */
  lemma NothingMissedIffExtensionsAccepted(exts: seq<Text>)
    ensures (forall f | HasAnyExtension(f, exts) :: AcceptedBackward(f, exts))
      <==> forall e | e in exts && e != [] :: AcceptedBackward(e, exts)
  {
    hide Accepts, Stem, ExtensionAt, AcceptsBackwards, AcceptedBackward;
    if forall e | e in exts && e != [] :: AcceptedBackward(e, exts) {
      forall f | HasAnyExtension(f, exts) ensures AcceptedBackward(f, exts) {
        var i :| 0 <= i < |exts| && HasExtension(f, exts[i]);
        var p: nat :| ExtensionAt(f, exts[i], p);
        AcceptedWithTheStem(f, exts[i], p, exts);
      }
    }
    if forall f | HasAnyExtension(f, exts) :: AcceptedBackward(f, exts) {
      forall e | e in exts && e != [] ensures AcceptedBackward(e, exts) {
        FoundBehindSlash(exts, e);
        SlashChangesNothing(e, exts);
      }
    }
  }

  lemma SlashChangesNothing(e: Text, exts: seq<Text>)
    ensures AcceptedBackward([SLASH] + e, exts) <==> AcceptedBackward(e, exts)
  {
    hide Accepts, Stem;
    StemBehindSlash(e);
  }

  /** In terms of strings, for a list without an empty extension: it misses nothing exactly when the stem
      of every extension holds some extension of the list. */
  lemma NothingMissedIffStemsHold(exts: seq<Text>)
    requires [] !in exts
    ensures (forall f :: HasAnyExtension(f, exts) ==> ContainsAny(Members(exts), Stem(f)))
      <==> forall e | e in exts :: ContainsAny(Members(exts), Stem(e))
  {
    hide Stem, HasAnyExtension, ContainsAny, AcceptsBackwards;
    NothingMissedIffExtensionsAccepted(exts);
    forall f ensures AcceptedBackward(f, exts) == ContainsAny(Members(exts), Stem(f)) {
      NotEmptyAnswer(Members(exts), f);
    }
  }

  /** An extension the backward automaton can be trusted with whatever else is in the list. */
  predicate Suitable(ext: Text)
    requires ext != []
  {
    SLASH !in ext && !IsVersionByte(ext[|ext| - 1])
  }

  lemma SuitableIsItsOwnStem(ext: Text)
    requires ext != []
    ensures Suitable(ext) <==> Occurs(ext, Stem(ext))
    ensures Suitable(ext) <==> Stem(ext) == ext
  {
    var v := VersionStart(ext, |ext|);
    if Suitable(ext) {
      NoSlash(ext, |ext|);
      assert OccursAt(ext, Stem(ext), 0);
    } else {
      assert |Stem(ext)| < |ext|;
    }
  }

  /** For a list of one: the extension holds no separator and ends in neither digit nor dot. */
  lemma NothingMissedIffSuitable(ext: Text)
    requires ext != []
    ensures (forall f :: HasExtension(f, ext) ==> Occurs(ext, Stem(f))) <==> Suitable(ext)
    ensures Suitable(ext) <==> 47 !in ext && ext[|ext| - 1] != 46 && !(48 <= ext[|ext| - 1] <= 57)
  {
    hide Stem, HasExtension;
    NothingMissedIffStemsHold([ext]);
    SuitableIsItsOwnStem(ext);
    assert Members([ext]) == {ext};
    forall f ensures HasAnyExtension(f, [ext]) <==> HasExtension(f, ext) {
      assert [ext][0] == ext;
    }
  }

  /** A list of such extensions misses nothing. */
  lemma AcceptedByReverseAutomaton(f: Text, exts: seq<Text>)
    requires HasAnyExtension(f, exts)
    requires forall e | e in exts && e != [] :: Suitable(e)
    ensures ContainsAny(Members(exts), Stem(f))
  {
    var i :| 0 <= i < |exts| && HasExtension(f, exts[i]);
    var p: nat :| ExtensionAt(f, exts[i], p);
    var ext := exts[i];
    SuitableIsItsOwnStem(ext);
    StemOfOccurrence(f, ext, p);
    assert OccursAt(ext, Stem(f), |Stem(f)| - |ext|) && Occurs(ext, Stem(f)) && ext in Members(exts);
  }

  /** All matchers side by side.  The two forward automata always agree and accept what the production
      matcher accepts; the backward one does so if it accepts the extensions themselves. */
  method CompareMatchers(f: Text, exts: seq<Text>) returns (naive: bool, hashMap: bool, arr: bool, reverse: bool)
    ensures hashMap == arr == AcceptedForward(f, exts) && reverse == AcceptedBackward(f, exts)
    ensures naive == HasAnyExtension(f, exts) && (naive ==> hashMap)
    ensures (forall e | e in exts && e != [] :: AcceptedBackward(e, exts)) ==> (naive ==> reverse)
    ensures [] !in exts ==> hashMap == Matches(Members(exts), Dotted(exts), f)
    ensures [] !in exts ==> reverse == ContainsAny(Members(exts), Stem(f))
    ensures [] !in exts && (forall e | e in exts :: e != [] && Suitable(e)) ==> (naive ==> reverse)
  {
    hide Accepts, Stem, HasAnyExtension, AcceptsBackwards;
    naive := FilenameHasAnyOfExtensions(f, exts);
    var forward := BuildMatcherHashMap(exts);
    ghost var hops;
    hashMap, hops := forward.Scan(f);
    var table := BuildMatcherArray(exts);
    arr := table.Scan(f);
    var backward := BuildMatcherArrayReverse(exts);
    reverse := backward.Scan(f);
    if naive {
      AcceptedByForwardAutomata(f, exts);
    }
    NothingMissedIffExtensionsAccepted(exts);
    if [] !in exts {
      NoEmptyPatterns(exts);
      if naive && forall e | e in exts :: e != [] && Suitable(e) {
        AcceptedByReverseAutomaton(f, exts);
      }
    }
  }

  lemma NoEmptyPatterns(exts: seq<Text>)
    requires [] !in exts
    ensures [] !in Members(exts) + Dotted(exts)
  {
    forall e | e in exts ensures e + [DOT] != [] { assert |e + [DOT]| > 0; }
  }

  // ---- The converse: what is accepted and should not be -----------------------------------------------

  lemma Shortest(exts: seq<Text>) returns (e: Text)
    requires exts != []
    ensures e in exts && forall x | x in exts :: |e| <= |x|
  {
    if |exts| == 1 {
      e := exts[0];
    } else {
      var rest := exts[1..];
      e := Shortest(rest);
      assert exts == [exts[0]] + rest;
      if |exts[0]| < |e| {
        e := exts[0];
      }
    }
  }

  /** The forward automata accept nothing but what the matcher accepts only when there is nothing to
      match: otherwise the shortest extension, taken as a whole file name, or a lone dot if that extension
      is empty, is accepted by them and not by the matcher, which wants a byte in front. */
  lemma ForwardAutomataExactIffNothingToMatch(exts: seq<Text>)
    ensures (forall f :: AcceptedForward(f, exts) ==> HasAnyExtension(f, exts)) <==> exts == []
  {
    if exts == [] {
      assert Members(exts) == {} && Dotted(exts) == {};
      forall f ensures !AcceptedForward(f, exts) {
        AcceptsIsMatches({}, {}, f);
      }
    } else if [] in exts {
      LoneDotAccepted(exts);
      assert forall x | x in exts && x != [] :: |x| >= 1;
      TooLongForTheMatcher([DOT], exts);
    } else {
      var e := Shortest(exts);
      NoEmptyPatterns(exts);
      assert IsSuffix(e, e) && e in Members(exts);
      AcceptsIsMatches(Members(exts), Dotted(exts), e);
      TooLongForTheMatcher(e, exts);
    }
  }

  lemma LoneDotAccepted(exts: seq<Text>)
    requires [] in exts
    ensures AcceptedForward([DOT], exts)
  {
    var L, dot: Text := Prefixes(Members(exts) + Dotted(exts)), [DOT];
    assert [] + [DOT] == dot && dot in Dotted(exts);
    PatternsArePrefixes(Members(exts) + Dotted(exts));
    assert dot[..1] == dot && Longest(L, dot) == dot && Flag(L, Dotted(exts), dot);
  }

  lemma TooLongForTheMatcher(f: Text, exts: seq<Text>)
    requires forall x | x in exts && x != [] :: |f| <= |x|
    ensures !HasAnyExtension(f, exts)
  {
    forall i | 0 <= i < |exts| ensures !HasExtension(f, exts[i]) {
      assert exts[i] in exts;
    }
  }

  ghost function WithoutSlash(exts: seq<Text>): (r: seq<Text>)
    ensures forall e :: e in r <==> e in exts && e != [] && SLASH !in e
  {
    if exts == [] then []
    else
      assert exts == [exts[0]] + exts[1..];
      (if exts[0] == [] || SLASH in exts[0] then [] else [exts[0]]) + WithoutSlash(exts[1..])
  }

  ghost predicate EndsIn(exts: seq<Text>, c: Byte) {
    exists e :: e in exts && IsSuffix([c], e)
  }

  /** Every extension holds a separator; if there is an empty one, every other byte ends some extension,
      so that no byte leads back to the root state, which then counts as a match. */
  ghost predicate NothingToFindBackward(exts: seq<Text>) {
    && (forall e | e in exts && e != [] :: SLASH in e)
    && ([] in exts ==> forall c: Byte | c != SLASH :: EndsIn(exts, c))
  }

  /** The backward automaton accepts nothing but what the matcher accepts exactly when it accepts nothing
      at all, and this is when. */
  lemma BackwardAutomatonExactIffNothingToMatch(exts: seq<Text>)
    ensures (forall f :: AcceptedBackward(f, exts) ==> HasAnyExtension(f, exts)) <==> NothingToFindBackward(exts)
    ensures NothingToFindBackward(exts) ==> forall f :: !AcceptedBackward(f, exts)
  {
    hide AcceptedBackward, HasAnyExtension, EndsIn;
    if NothingToFindBackward(exts) {
      forall f ensures !AcceptedBackward(f, exts) {
        NothingFoundBackward(exts, f);
      }
    } else if exists e :: e in exts && e != [] && SLASH !in e {
      var f := AcceptedBackwardOnly(exts);
    } else {
      var c: Byte :| c != SLASH && !EndsIn(exts, c);
      var f := AcceptedAtTheRoot(exts, c);
    }
  }

  lemma AcceptedBackwardOnly(exts: seq<Text>) returns (f: Text)
    requires exists e :: e in exts && e != [] && SLASH !in e
    ensures AcceptedBackward(f, exts) && !HasAnyExtension(f, exts)
  {
    hide AcceptedBackward, Members, HasAnyExtension;
    var plain := WithoutSlash(exts);
    var e := Shortest(plain);
    var shifted := e[1..] + [97];
    if shifted in exts {
      f := shifted;
      WholeNameAccepted(exts, f, f);
    } else {
      f := e + [97];
      assert f[1..] == shifted;
      WholeNameAccepted(exts, e, f);
    }
    NoneBehindTheFirstByte(exts, e, f);
  }

  /** A name without separator that ends in a letter is its own stem. */
  lemma WholeNameAccepted(exts: seq<Text>, e: Text, f: Text)
    requires e in exts && e != [] && e <= f && SLASH !in f && f[|f| - 1] == 97
    ensures AcceptedBackward(f, exts)
  {
    hide Accepts;
    var some := Members(exts) - {[]};
    assert VersionStart(f, |f|) == |f|;
    NoSlash(f, |f|);
    assert Stem(f) == f;
    assert OccursAt(e, f, 0) && Occurs(e, f) && e in some;
    NotEmptyAnswer(some, f);
    NoEmptyMirrored(some);
    assert Mirrored(some) - {[]} == Mirrored(some) == Mirrored(Members(exts)) - {[]};
    var none: set<Text> := {};
    assert none - {[]} == none;
    EmptyPatternTakesNothing(none, Mirrored(Members(exts)), Reversed(Stem(f)));
  }

  /** f is not longer than the shortest extension without separator, or by one letter that makes none. */
  lemma NoneBehindTheFirstByte(exts: seq<Text>, e: Text, f: Text)
    requires SLASH !in f && f != [] && forall x | x in exts && x != [] && SLASH !in x :: |e| <= |x|
    requires |f| <= |e| || (|f| == |e| + 1 && f[1..] !in exts)
    ensures !HasAnyExtension(f, exts)
  {
    forall i, p: nat | 0 <= i < |exts| && exts[i] != [] ensures !ExtensionAt(f, exts[i], p) {
      var x := exts[i];
      assert x in exts;
      WholeTail(x, f);
      SlashStays(x, f, p);
    }
  }

  lemma SlashStays(x: Text, f: Text, p: nat)
    requires SLASH !in f
    ensures OccursAt(x, f, p) ==> SLASH !in x
  {
    OccursPointwise(x, f, p);
    if OccursAt(x, f, p) {
      forall k | 0 <= k < |x| ensures x[k] != SLASH { assert f[p + k] in f; }
    }
  }

  lemma WholeTail(x: Text, f: Text)
    ensures |x| + 1 == |f| && OccursAt(x, f, 1) ==> f[1..] == x
  {
    if |x| + 1 == |f| {
      assert f[1..1 + |x|] == f[1..];
    }
  }

  lemma NoSlash(f: Text, e: nat)
    requires e <= |f| && forall i | 0 <= i < e :: f[i] != SLASH
    ensures NameStart(f, e) == 0
  {
  }

  /** With separators in all patterns no text without one ends in a flagged state, unless it ends in the
      root and the root is a pattern. */
  lemma {:induction false} NeverFlagged(L: set<Text>, P: set<Text>, u: Text)
    requires [] in L && u != [] && SLASH !in u
    requires forall p | p in P && p != [] :: SLASH in p
    requires [] in P ==> forall c: Byte | c != SLASH :: [c] in L
    ensures !Flag(L, P, Longest(L, u))
    decreases |u|
  {
    var w, last := Longest(L, u), u[|u| - 1];
    LongestIsMaximal(L, u);
    assert IsSuffix([last], u);
    assert SLASH !in w;
    if |w| >= 2 {
      NeverFlagged(L, P, w[1..]);
    }
  }

  lemma NothingFoundBackward(exts: seq<Text>, f: Text)
    requires NothingToFindBackward(exts)
    ensures !AcceptedBackward(f, exts)
  {
    var P, text := Mirrored(Members(exts)), Reversed(Stem(f));
    var L := Prefixes({} + P);
    NoEmptyMirrored(Members(exts));
    forall p | p in P && p != [] ensures SLASH in p {
      var e :| e in Members(exts) && p == Reversed(e);
      assert |p| == |e|;
      var k :| 0 <= k < |e| && e[k] == SLASH;
      assert p[|e| - 1 - k] == SLASH;
    }
    forall c: Byte | [] in P && c != SLASH ensures [c] in L {
      assert EndsIn(exts, c);
      var e :| e in exts && IsSuffix([c], e);
      assert e[|e| - 1..] == [c];
      assert Reversed(e) in P && [c] == Reversed(e)[..1];
    }
    NoSlashBackward(f);
    forall k | 0 < k <= |text| ensures !Flag(L, P, Longest(L, text[..k])) {
      NeverFlagged(L, P, text[..k]);
    }
    NothingFlagged(L, Longest(L, text));
  }

  lemma NoSlashBackward(f: Text)
    ensures SLASH !in Reversed(Stem(f))
  {
    var e := VersionStart(f, |f|);
    assert forall i | 0 <= i < |Stem(f)| :: Stem(f)[i] == f[NameStart(f, e) + i];
  }

  /** With an empty extension the root is a match, and a byte that ends no extension leads to it. */
  lemma AcceptedAtTheRoot(exts: seq<Text>, c: Byte) returns (f: Text)
    requires [] in exts && forall e | e in exts && e != [] :: SLASH in e
    requires c != SLASH && !EndsIn(exts, c)
    ensures AcceptedBackward(f, exts) && !HasAnyExtension(f, exts)
  {
    f := if IsVersionByte(c) then [c, 97] else [c];
    var P, text := Mirrored(Members(exts)), Reversed(f);
    var L := Prefixes({} + P);
    hide Prefixes, Longest, Flag;
    RootOnly(exts, c);
    NoEmptyMirrored(Members(exts));
    assert VersionStart(f, |f|) == |f|;
    NoSlash(f, |f|);
    assert Stem(f) == f && text[..|f|] == text;
    LeadsToTheRoot(L, P, c, text);
    forall i, p: nat | 0 <= i < |exts| && exts[i] != [] ensures !ExtensionAt(f, exts[i], p) {
      assert exts[i] in exts;
      SlashStays(exts[i], f, p);
    }
  }

  lemma LeadsToTheRoot(L: set<Text>, P: set<Text>, c: Byte, text: Text)
    requires [] in L && [] in P && [c] !in L && (text == [c] || (|text| == 2 && text[1] == c))
    ensures Flag(L, P, Longest(L, text))
  {
    assert [c][1..] == [] && Longest(L, [c]) == [];
    assert |text| == 2 ==> text[1..] == [c];
    assert Flag(L, P, []);
  }

  lemma RootOnly(exts: seq<Text>, c: Byte)
    requires !EndsIn(exts, c)
    ensures [c] !in Prefixes({} + Mirrored(Members(exts)))
  {
    var P := Mirrored(Members(exts));
    PrefixesMembers({} + P, [c]);
    forall p | p in P ensures !([c] <= p) {
      var e :| e in Members(exts) && p == Reversed(e);
      assert [c] <= p ==> IsSuffix([c], e);
    }
  }
}
