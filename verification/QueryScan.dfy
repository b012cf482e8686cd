/** A query against a linear scan: what looking a name up in the database means for someone who would
    rather parse every file and compare every symbol. */
module QueryScan {
  import opened Bytes
  import opened SymbolTables
  import opened Trigrams
  import opened DatabaseFormat
  import opened DatabaseStore
  import opened DatabaseReader

  // ---- Paths ------------------------------------------------------------------------------------

  /** The full path as the scanner puts it together. */
  function ScannerPath(files: seq<FileInfo>, paths: seq<Text>, file: nat): Text
    requires file < |files|
  {
    var info := files[file];
    (if info.pathId < |paths| then paths[info.pathId] else []) + info.name
  }

  predicate EndsInSlash(path: Text) {
    path == [] || path[|path| - 1] == SLASH
  }

  /** Reader and scanner name a file alike exactly when its directory was stored with its slash. */
  lemma PathsAgreeIffSlashed(files: seq<FileInfo>, paths: seq<Text>, file: nat)
    requires file < |files|
    ensures ReaderPath(files, paths, file) == ScannerPath(files, paths, file)
      <==> (files[file].pathId < |paths| ==>
              var path := paths[files[file].pathId]; path == [] || path[|path| - 1] == 47)
  {
    if files[file].pathId < |paths| && !EndsInSlash(paths[files[file].pathId]) {
      assert |ReaderPath(files, paths, file)| == |ScannerPath(files, paths, file)| + 1;
    }
  }

  // ---- The scan ---------------------------------------------------------------------------------

  /** A line of output. */
  datatype Found = Found(name: Text, fullPath: Text, meta: Meta)

  /** The exact comparator together with the defined-only filter. */
  function Wanted(query: Text): (Text, Meta) -> bool {
    (name, meta: Meta) => name == query && meta.isDefined
  }

  ghost predicate FilesKnown(files: seq<FileInfo>, events: seq<Event>) {
    forall k | 0 <= k < |events| :: events[k].ref.fileId < |files|
  }

  /** Every symbol of every file, in parsing order, kept if it is wanted. */
  function Scan(files: seq<FileInfo>, paths: seq<Text>, events: seq<Event>, query: Text): seq<Found>
    requires FilesKnown(files, events)
  {
    if events == [] then []
    else
      var r, e := Scan(files, paths, events[..|events| - 1], query), events[|events| - 1];
      if Wanted(query)(e.name, e.ref.meta)
      then r + [Found(e.name, ScannerPath(files, paths, e.ref.fileId), e.ref.meta)]
      else r
  }

  /** What a query prints. */
  function Named(name: Text, refs: seq<FileReference>): seq<Found> {
    if refs == [] then []
    else Named(name, refs[..|refs| - 1]) + [Found(name, refs[|refs| - 1].fullPath, refs[|refs| - 1].meta)]
  }

  function Shown(results: seq<LookupResult>): seq<Found> {
    if results == [] then []
    else
      var last := results[|results| - 1];
      Shown(results[..|results| - 1]) + Named(last.name, last.references)
  }

  function Printed(r: Option<seq<LookupResult>>): seq<Found> {
    if r.Some? then Shown(r.value) else []
  }

  // ---- One candidate ----------------------------------------------------------------------------

  lemma {:induction false} OtherNamesKeepNothing(c: Content, name: Text, refs: seq<Ref>, query: Text)
    requires name != query
    ensures Kept(c, name, refs, Wanted(query)) == []
  {
    if refs != [] {
      OtherNamesKeepNothing(c, name, refs[..|refs| - 1], query);
    }
  }

  lemma NamedSnoc(name: Text, refs: seq<FileReference>, r: FileReference)
    ensures Named(name, refs + [r]) == Named(name, refs) + [Found(name, r.fullPath, r.meta)]
  {
    assert (refs + [r])[..|refs|] == refs;
  }

  /** What a well-formed scan leaves behind: known files, and directories stored with their slash. */
  ghost predicate WellScanned(c: Content, events: seq<Event>) {
    && c.table == TableOf(events) && FilesKnown(c.files, events)
    && forall i | 0 <= i < |c.paths| :: EndsInSlash(c.paths[i])
  }

  /** The references of the queried name, filtered by the reader, are the scan. */
  lemma {:induction false} KeptIsScan(c: Content, events: seq<Event>, query: Text)
    requires FilesKnown(c.files, events) && forall i | 0 <= i < |c.paths| :: EndsInSlash(c.paths[i])
    ensures Named(query, Kept(c, query, RefsNamed(events, query), Wanted(query)))
      == Scan(c.files, c.paths, events, query)
  {
    if events != [] {
      var rest, e := events[..|events| - 1], events[|events| - 1];
      KeptIsScan(c, rest, query);
      if e.name == query {
        KeptOneMore(c, RefsNamed(rest, query), e.ref, query);
      }
    }
  }

  lemma KeptOneMore(c: Content, refs: seq<Ref>, ref: Ref, query: Text)
    requires ref.fileId < |c.files| && forall i | 0 <= i < |c.paths| :: EndsInSlash(c.paths[i])
    ensures Named(query, Kept(c, query, refs + [ref], Wanted(query)))
      == Named(query, Kept(c, query, refs, Wanted(query))) +
      if ref.meta.isDefined then [Found(query, ScannerPath(c.files, c.paths, ref.fileId), ref.meta)] else []
  {
    var kept := Kept(c, query, refs, Wanted(query));
    assert (refs + [ref])[..|refs|] == refs;
    PathsAgreeIffSlashed(c.files, c.paths, ref.fileId);
    NamedSnoc(query, kept, FileReference(ReaderPath(c.files, c.paths, ref.fileId), ref.meta));
    assert Kept(c, query, refs + [ref], Wanted(query)) ==
      if ref.meta.isDefined then kept + [FileReference(ReaderPath(c.files, c.paths, ref.fileId), ref.meta)] else kept;
  }

  // ---- All candidates -----------------------------------------------------------------------------

  lemma ShownTake(results: seq<LookupResult>, n: nat)
    requires n < |results|
    ensures Shown(results[..n + 1]) == Shown(results[..n]) + Named(results[n].name, results[n].references)
  {
    assert results[..n + 1][..n] == results[..n];
  }

  /** The queried name is one of the first n candidates. */
  ghost predicate Among(names: seq<Text>, ids: seq<nat>, n: nat, query: Text)
    requires n <= |ids| && forall k | 0 <= k < |ids| :: ids[k] < |names|
  {
    exists k :: 0 <= k < n && names[ids[k]] == query
  }

  lemma AmongOneMore(t: Table, ids: seq<nat>, n: nat, query: Text)
    requires Valid(t) && n < |ids| && forall k | 0 <= k < |ids| :: ids[k] < |t.keys|
    requires forall i, j | 0 <= i < j < |ids| :: ids[i] != ids[j]
    ensures Among(t.keys, ids, n + 1, query) <==> Among(t.keys, ids, n, query) || t.keys[ids[n]] == query
    ensures t.keys[ids[n]] == query ==> !Among(t.keys, ids, n, query)
  {
  }

  /** Only the candidate that is the queried name itself contributes references. */
  lemma {:induction false} OnlyTheNameCounts(results: seq<LookupResult>, ids: seq<nat>, c: Content, query: Text, n: nat)
    requires Valid(c.table) && AnswersFor(results, ids, c, Wanted(query)) && n <= |ids|
    requires forall i, j | 0 <= i < j < |ids| :: ids[i] != ids[j]
    requires forall k | 0 <= k < |ids| :: ids[k] < |c.table.keys|
    ensures Among(c.table.keys, ids, n, query) ==> query in c.table.refs
    ensures Shown(results[..n]) ==
      if Among(c.table.keys, ids, n, query)
      then Named(query, Kept(c, query, c.table.refs[query], Wanted(query))) else []
  {
    hide Kept, Named, Among;
    if n == 0 {
      NoneAmong(c.table.keys, ids, query);
    } else {
      OnlyTheNameCounts(results, ids, c, query, n - 1);
      ShownTake(results, n - 1);
      AmongOneMore(c.table, ids, n - 1, query);
      assert AnswerIs(results[n - 1], ids[n - 1], c, Wanted(query));
      var name := c.table.keys[ids[n - 1]];
      if name != query {
        OtherNamesKeepNothing(c, name, c.table.refs[name], query);
        NoneNamed(name);
      }
    }
  }

  lemma NoneAmong(names: seq<Text>, ids: seq<nat>, query: Text)
    requires forall k | 0 <= k < |ids| :: ids[k] < |names|
    ensures !Among(names, ids, 0, query)
  {
  }

  lemma NoneNamed(name: Text)
    ensures Named(name, []) == []
  {
  }

  /** What `find_symbol_references` promises of its result. */
  ghost predicate Answers(r: Option<seq<LookupResult>>, ids: seq<nat>, c: Content, query: Text)
    requires Valid(c.table)
  {
    if r.Some? then query != [] && Candidates(ids, c.table.keys, query) && AnswersFor(r.value, ids, c, Wanted(query))
    else query == [] || forall i | 0 <= i < |c.table.keys| :: !HoldsAll(c.table.keys[i], query)
  }

  /** The index query prints exactly what the linear scan prints, in the same order. */
  lemma QueryEqualsScan(r: Option<seq<LookupResult>>, ids: seq<nat>, c: Content, events: seq<Event>, query: Text)
    requires WellScanned(c, events) && query != []
    requires Valid(c.table) && Answers(r, ids, c, query)
    ensures Printed(r) == Scan(c.files, c.paths, events, query)
  {
    hide Kept, Named, Scan, Shown, HoldsAll;
    var t := c.table;
    KeptIsScan(c, events, query);
    UnseenHasNoRefs(events, query);
    assert query in t.keys ==> t.refs[query] == RefsNamed(events, query);
    if query !in t.keys {
      NothingStoredNothingFound(c, events, query);
    }
    HoldsItself(query);
    if r.Some? {
      CandidatesInRange(ids, t.keys, query);
      OnlyTheNameCounts(r.value, ids, c, query, |ids|);
      TakeAll(r.value);
      if query in t.keys {
        var i :| 0 <= i < |t.keys| && t.keys[i] == query;
        assert i in ids;
        var k :| 0 <= k < |ids| && ids[k] == i;
        assert t.keys[ids[k]] == query;
      } else {
        assert forall k | 0 <= k < |ids| :: t.keys[ids[k]] in t.keys;
      }
    }
  }

  lemma HoldsItself(query: Text)
    ensures HoldsAll(query, query)
  {
  }

  lemma NothingStoredNothingFound(c: Content, events: seq<Event>, query: Text)
    requires WellScanned(c, events) && RefsNamed(events, query) == []
    ensures Scan(c.files, c.paths, events, query) == []
  {
    KeptIsScan(c, events, query);
  }

  lemma ScanOfOne(files: seq<FileInfo>, paths: seq<Text>, e: Event, query: Text)
    requires FilesKnown(files, [e]) && Wanted(query)(e.name, e.ref.meta)
    ensures |Scan(files, paths, [e], query)| == 1
  {
    assert [e][..0] == [];
    assert Scan(files, paths, [], query) == [];
  }

  /** Over symbol tables of any kind, including ones the parser never fills, the empty query is the only
      one that can go wrong: it is never answered, even where an empty name was stored. */
  lemma ExactForEveryDatabaseIffNonEmpty(query: Text)
    ensures (forall r, ids, c, events | WellScanned(c, events) && Answers(r, ids, c, query) ::
               Printed(r) == Scan(c.files, c.paths, events, query))
      <==> query != []
  {
    if query != [] {
      forall r, ids, c, events | WellScanned(c, events) && Answers(r, ids, c, query)
        ensures Printed(r) == Scan(c.files, c.paths, events, query)
      {
        QueryEqualsScan(r, ids, c, events, query);
      }
    } else {
      var meta := Meta(true, 0, 0, 0, 0, 0);
      var events := [Event([], Ref(0, meta))];
      var c := Content([], None, [FileInfo([], 0)], [], TableOf(events));
      assert WellScanned(c, events) && Answers(None, [], c, query);
      ScanOfOne(c.files, c.paths, events[0], query);
    }
  }

  ghost predicate SomeEmptyName(events: seq<Event>) {
    exists k :: 0 <= k < |events| && events[k].name == [] && events[k].ref.meta.isDefined
  }

  /** A query prints the scan exactly unless it is empty and a defined symbol with an empty name was
      stored, which the parser never lets happen: over the databases of this code every query is exact. */
  lemma QueryIsExactUnlessEmptyNameStored(r: Option<seq<LookupResult>>, ids: seq<nat>, c: Content,
                                          events: seq<Event>, query: Text)
    requires WellScanned(c, events) && Answers(r, ids, c, query)
    ensures Printed(r) == Scan(c.files, c.paths, events, query) <==> query != [] || !SomeEmptyName(events)
  {
    if query != [] {
      QueryEqualsScan(r, ids, c, events, query);
    } else {
      NothingToFindIffNoEmptyName(c.files, c.paths, events);
    }
  }

  /** For the empty query the scan finds nothing, as the query does, exactly when no defined symbol has an
      empty name.  The parser drops such symbols before demangling. */
  lemma {:induction false} NothingToFindIffNoEmptyName(files: seq<FileInfo>, paths: seq<Text>, events: seq<Event>)
    requires FilesKnown(files, events)
    ensures Scan(files, paths, events, []) == [] <==> !SomeEmptyName(events)
  {
    if events != [] {
      var rest := events[..|events| - 1];
      NothingToFindIffNoEmptyName(files, paths, rest);
      assert forall k | 0 <= k < |rest| :: rest[k] == events[k];
    }
  }

  // ---- What the trigrams decide -------------------------------------------------------------------

  /** Every name equal to the query up to ASCII case is a candidate. */
  lemma FoldedEqualIsCandidate(ids: seq<nat>, names: seq<Text>, query: Text, i: nat)
    requires Candidates(ids, names, query) && i < |names| && Folded(names[i]) == Folded(query)
    ensures i in ids
  {
    TrigramsDetermineWord(names[i], query);
    assert HoldsAll(names[i], query);
  }

  /** A name as the object files hold it: NUL ends a name there. */
  predicate NoNul(w: Text) {
    0 !in w
  }

  lemma NeverNulInside(w: Text, i: int)
    requires NoNul(w)
    ensures At(w, i) == 0 <==> i < 0 || i >= |w|
  {
    if 0 <= i < |w| {
      assert w[i] in w;
    }
  }

  /** The codes of a query that fits into one window pin the name down. */
  lemma OneByteIsExact(w: Text, q: Text)
    requires NoNul(w) && NoNul(q) && |q| == 1 && HoldsAll(w, q)
    ensures Folded(w) == Folded(q)
  {
    assert TrigramSeq(q)[1] == TrigramAt(q, -1) && TrigramAt(q, -1) in Codes(q);
    var k :| 0 <= k < |TrigramSeq(w)| && TrigramSeq(w)[k] == TrigramAt(q, -1);
    EncodeIsInjective(At(w, k - 2), At(w, k - 1), At(w, k), At(q, -1), At(q, 0), At(q, 1));
    NeverNulInside(w, k - 2);
    NeverNulInside(w, k - 1);
    NeverNulInside(w, k);
    NeverNulInside(q, 0);
    assert |w| == 1 && k == 1;
  }

  /** A word written twice holds every code of the word, as soon as it has two bytes. */
  lemma TwiceHoldsAll(q: Text)
    requires |q| >= 2
    ensures HoldsAll(q + q, q)
  {
    hide TrigramAt, TrigramSeq;
    forall x | x in Codes(q) ensures x in Codes(q + q) {
      var k :| 0 <= k < |TrigramSeq(q)| && TrigramSeq(q)[k] == x;
      SameWindowTwice(q, k);
      assert x == TrigramSeq(q + q)[if k < |q| then k else k + |q|];
    }
  }

  lemma SameWindowTwice(q: Text, k: nat)
    requires |q| >= 2 && k < |q| + 2
    ensures TrigramAt(q, k - 2) == TrigramAt(q + q, if k < |q| then k - 2 else k - 2 + |q|)
  {
  }

  /** The trigrams alone decide a query, up to ASCII case, exactly when it has one byte: every longer
      one has a candidate of another name. */
  lemma CandidatesAreTheNameIffOneByte(q: Text)
    requires q != [] && NoNul(q)
    ensures (forall w | NoNul(w) && HoldsAll(w, q) :: Folded(w) == Folded(q)) <==> |q| == 1
  {
    if |q| == 1 {
      forall w | NoNul(w) && HoldsAll(w, q) ensures Folded(w) == Folded(q) {
        OneByteIsExact(w, q);
      }
    } else {
      TwiceHoldsAll(q);
      assert NoNul(q + q) && |Folded(q + q)| != |Folded(q)|;
    }
  }

  predicate IsLetter(c: Byte) {
    65 <= c <= 90 || 97 <= c <= 122
  }

  function OtherCase(c: Byte): (r: Byte)
    requires IsLetter(c)
    ensures r != c && Fold(r) == Fold(c) && r != 0
  {
    if c <= 90 then c + 32 else c - 32
  }

  /** They decide it outright exactly when that byte is no letter. */
  lemma CandidatesAreEqualIffOneNonLetter(q: Text)
    requires q != [] && NoNul(q)
    ensures (forall w | NoNul(w) && HoldsAll(w, q) :: w == q)
      <==> |q| == 1 && !(65 <= q[0] <= 90 || 97 <= q[0] <= 122)
  {
    if |q| >= 2 {
      TwiceHoldsAll(q);
      assert NoNul(q + q) && |q + q| != |q|;
    } else if IsLetter(q[0]) {
      var w := [OtherCase(q[0])];
      assert Folded(w) == Folded(q);
      TrigramsDetermineWord(w, q);
      assert NoNul(w) && HoldsAll(w, q) && w[0] != q[0];
    } else {
      forall w | NoNul(w) && HoldsAll(w, q) ensures w == q {
        OneByteIsExact(w, q);
        assert Folded(w)[0] == Folded(q)[0];
      }
    }
  }
}
