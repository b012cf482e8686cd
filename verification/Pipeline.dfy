/** From a directory walk to the answer of a query, end to end: scan in parallel, store, load, look up. */
module Pipeline {
  import opened Bytes
  import opened Sequences
  import opened Packing
  import opened SymbolTables
  import opened ParallelBuild
  import opened DatabaseFormat
  import opened FileStore
  import opened DatabaseStore
  import opened DatabaseImage
  import opened DatabaseReader
  import opened QueryScan
  import opened FileScanner
  import opened FormatLimits

  // ---- Loading an image ---------------------------------------------------------------------------

  /** The blocks decompressed from an image are the plain blocks. */
  lemma ImagePlain(bytes: Text, c: Content, z: Codec, tt: TrigramTable, packed: seq<Text>)
    requires ImageOf(bytes, c, z, tt, packed) && FormatFits(c, tt, packed) && Lossless(z)
    ensures Readable(bytes) && Recognised(HeaderOf(bytes)) && Decompresses(bytes, z)
    ensures PlainOf(bytes, z) == Plain(c, tt)
    ensures HeaderOf(bytes).trigrams.capacity == |tt.slots|
  {
    hide Plain, Unpacked, HeaderOf, ImageOf, Readable, HeaderFor;
    ImageReadsBack(bytes, c, z, tt, packed);
    ImageParts(bytes, c, z, tt, packed);
    CapacityInHeader(c, tt, packed);
    BlocksUnpacked(bytes, z, Plain(c, tt));
  }

  lemma ImageParts(bytes: Text, c: Content, z: Codec, tt: TrigramTable, packed: seq<Text>)
    requires ImageOf(bytes, c, z, tt, packed)
    ensures Valid(c.table) && |packed| == BLOCKS
  {
  }

  lemma BlocksUnpacked(bytes: Text, z: Codec, plain: seq<Text>)
    requires Readable(bytes) && Recognised(HeaderOf(bytes)) && |plain| == BLOCKS
    requires forall i | 0 <= i < BLOCKS :: Unpacked(bytes, z, i) == Some(plain[i])
    ensures Decompresses(bytes, z) && PlainOf(bytes, z) == plain
  {
    hide Unpacked, HeaderOf, Readable;
    assert Decompresses(bytes, z);
    var r := PlainOf(bytes, z);
    assert r[0] == plain[0] && r[1] == plain[1] && r[2] == plain[2] && r[3] == plain[3];
    assert r[4] == plain[4] && r[5] == plain[5] && r[6] == plain[6] && r[7] == plain[7] && r[8] == plain[8];
  }

  lemma CapacityInHeader(c: Content, tt: TrigramTable, packed: seq<Text>)
    requires Valid(c.table) && |packed| == BLOCKS
    ensures HeaderFor(c, tt, packed).trigrams.capacity == |tt.slots|
  {
    hide Plain;
  }

  /** The record counts a reader derives from the block lengths, and the table size it narrows to 32
      bits, are those of the content. */
  lemma CountsReadBack(c: Content, tt: TrigramTable)
    requires Valid(c.table) && TrigramsFor(tt, c.table.keys)
    ensures |Flatten(FileRows(c.files))| / FILE_SIZE == |c.files|
    ensures |Flatten(PathRows(c.paths))| / PATH_SIZE == |c.paths|
    ensures |Flatten(SymbolRows(c.table))| / SYMBOL_SIZE == |c.table.keys| && |tt.slots| % U32 == |tt.slots|
  {
    hide Flatten, FileRow, PathRow, SymbolRow, FileRows, PathRows, SymbolRows, TrigramsFor;
    WideLength(FileRows(c.files), FILE_SIZE);
    WideLength(PathRows(c.paths), PATH_SIZE);
    WideLength(SymbolRows(c.table), SYMBOL_SIZE);
    TableIsSmall(tt, c.table.keys);
    Counted(|c.files|);
    Counted(|c.paths|);
    Counted(|c.table.keys|);
  }

  lemma Counted(n: nat)
    ensures n * FILE_SIZE / FILE_SIZE == n && n * PATH_SIZE / PATH_SIZE == n && n * SYMBOL_SIZE / SYMBOL_SIZE == n
  {
  }

  /** A reader that loaded an image shows its content. */
  lemma LoadedImageShows(rdr: DatabaseReader, z: Codec, c: Content, tt: TrigramTable, packed: seq<Text>)
    requires ImageOf(rdr.file, c, z, tt, packed) && FormatFits(c, tt, packed) && rdr.Buffers() == Plain(c, tt)
    requires rdr.filesCount == |rdr.fileTable| / FILE_SIZE && rdr.pathsCount == |rdr.pathTable| / PATH_SIZE
    requires rdr.symbolsCount == |rdr.symbolIndex| / SYMBOL_SIZE && rdr.capacity == |tt.slots| % U32
    ensures rdr.Shows(c, tt)
  {
    hide Flatten, TrigramsFor, CompressedAs, FilesFit, PathsFit, HeaderFor;
    hide FileRows, PathRows, SymbolRows, SlotRows, PostingRows;
    CountsReadBack(c, tt);
    NamesAreFew(c.table);
    BuffersApart(rdr, c, tt);
  }

  lemma BuffersApart(rdr: DatabaseReader, c: Content, tt: TrigramTable)
    requires Valid(c.table) && rdr.Buffers() == Plain(c, tt)
    ensures rdr.fileTable == Flatten(FileRows(c.files)) && rdr.fileNames == Flatten(FileNames(c.files))
    ensures rdr.pathTable == Flatten(PathRows(c.paths)) && rdr.pathNames == Flatten(c.paths)
    ensures rdr.symbolIndex == Flatten(SymbolRows(c.table)) && rdr.symbolNames == Flatten(c.table.keys)
    ensures rdr.symbolMetadata == Flatten(MetadataRows(c.table))
    ensures rdr.slots == Flatten(SlotRows(tt.slots)) && rdr.postings == Flatten(PostingRows(tt.postings))
  {
    hide Flatten, FileRows, PathRows, SymbolRows, MetadataRows, SlotRows, PostingRows;
    var b := rdr.Buffers();
    assert b[0] == rdr.fileTable && b[1] == rdr.fileNames && b[2] == rdr.pathTable && b[3] == rdr.pathNames;
    assert b[4] == rdr.symbolIndex && b[5] == rdr.symbolNames && b[6] == rdr.symbolMetadata;
    assert b[7] == rdr.slots && b[8] == rdr.postings;
  }

  lemma NamesAreFew(t: Table)
    requires Valid(t) && SymbolsFit(t)
    ensures |t.keys| < U32
  {
    hide Flatten, MetadataRows;
  }

  // ---- Building -----------------------------------------------------------------------------------

  lemma {:induction false} FileEventsKnown(p: Parsed, file: nat, n: nat)
    requires file < |p| && n <= |p[file]|
    ensures forall e | e in FileEvents(p, file, n) :: e.ref.fileId == file
  {
    if n > 0 {
      FileEventsKnown(p, file, n - 1);
    }
  }

  lemma {:induction false} EventsKnown(p: Parsed, ids: seq<nat>)
    requires IdsFit(ids, p)
    ensures forall e | e in EventsOf(p, ids) :: e.ref.fileId < |p|
  {
    if ids != [] {
      var last := ids[|ids| - 1];
      EventsKnown(p, ids[..|ids| - 1]);
      FileEventsKnown(p, last, |p[last]|);
    }
  }

  /** All symbols of all files, in order. */
  function AllEvents(p: Parsed): seq<Event> {
    EventsOf(p, UpTo(|p|))
  }

  method BuildDatabase(db: DatabaseFile, files: seq<FileInfo>, paths: seq<Text>, p: Parsed, hardware: nat,
                       conf: Text, dict: Option<Text>, z: Codec)
    returns (ok: bool, ghost c: Content, ghost tt: TrigramTable, ghost packed: seq<Text>)
    requires |p| == |files| && 1 <= hardware < 0x1_0000 && db.bytes == []
    modifies db`bytes, db`signals, db`failures
    ensures c == Content(conf, dict, files, paths, c.table) && Valid(c.table)
    ensures |p| < U32 ==> c.table == TableOf(AllEvents(p))
    ensures db.isOpen && db.failures == old(db.failures) ==> TrigramsFor(tt, c.table.keys)
    ensures ok <==> db.isOpen && db.failures == old(db.failures) && Compresses(z, DictBytes(c), Plain(c, tt))
    ensures ok ==> CompressedAs(z, DictBytes(c), Plain(c, tt), packed)
    ensures ok && FormatFits(c, tt, packed) ==> ImageOf(db.bytes, c, z, tt, packed)
  {
    hide ImageOf, FormatFits, TableOf, TrigramsFor, CompressedAs, Compresses, Plain;
    var builder := new DatabaseBuilder();
    var table := builder.BuildTable(p, ProperThreadCount(|files|, hardware));
    var content := Content(conf, dict, files, paths, table);
    c := content;
    ok, tt, packed := StoreDb(db, content, z);
  }

  // ---- End to end ---------------------------------------------------------------------------------

  /** What a user expects to see: the wanted symbols of all files met, each with the place of its file. */
  function Expected(found: seq<Located>, events: seq<Event>, query: Text): seq<Found>
    requires Walked(found)
    requires forall e | e in events :: e.ref.fileId < |found|
  {
    if events == [] then []
    else
      var rest, e := events[..|events| - 1], events[|events| - 1];
      assert forall x | x in rest :: x in events;
      assert e in events;
      var r, place := Expected(found, rest, query), found[e.ref.fileId];
      if e.name == query && e.ref.meta.isDefined
      then r + [Found(query, FullPath(place), e.ref.meta)]
      else r
  }

  lemma {:induction false} ScanIsExpected(found: seq<Located>, files: seq<FileInfo>, paths: seq<Text>,
                                          events: seq<Event>, query: Text)
    requires Registered(files, paths, found) && |paths| <= U32
    requires forall e | e in events :: e.ref.fileId < |found|
    ensures FilesKnown(files, events) && Scan(files, paths, events, query) == Expected(found, events, query)
  {
    hide Registered, ScannerPath;
    FilesCollected(files, paths, found);
    assert forall k | 0 <= k < |events| :: events[k] in events;
    if events != [] {
      var rest := events[..|events| - 1];
      PlacedPath(files, paths, found, events[|events| - 1].ref.fileId);
      assert forall x | x in rest :: x in events;
      ScanIsExpected(found, files, paths, rest, query);
    }
  }

  function FoundIn(found: seq<Located>, query: Text): Event -> seq<Found> {
    (e: Event) =>
      if e.name == query && e.ref.meta.isDefined && e.ref.fileId < |found| && found[e.ref.fileId].directory != []
      then [Found(query, FullPath(found[e.ref.fileId]), e.ref.meta)] else []
  }

  lemma {:induction false} ExpectedGathers(found: seq<Located>, events: seq<Event>, query: Text)
    requires Walked(found) && forall e | e in events :: e.ref.fileId < |found|
    ensures Expected(found, events, query) == Gather(FoundIn(found, query), events)
  {
    hide FullPath;
    if events != [] {
      var rest, e := events[..|events| - 1], events[|events| - 1];
      assert forall x | x in rest :: x in events;
      assert e in events;
      ExpectedGathers(found, rest, query);
    }
  }

  /** The line shows the symbol at that place: its name, its data, and the directory and name of its file
      with one separator between them. */
  ghost predicate Shows(found: seq<Located>, p: Parsed, line: Found, at: Place) {
    && at.file < |p| && at.index < |p[at.file]| && at.file < |found|
    && line.name == p[at.file][at.index].name && line.meta == p[at.file][at.index].meta
    && var dir, name := found[at.file].directory, found[at.file].name;
    && dir != []
    && line.fullPath == if dir[|dir| - 1] == 47 then dir + name else dir + [47] + name
  }

  /** The wanted symbol stands at that place. */
  predicate WantedAt(p: Parsed, query: Text, at: Place) {
    && at.file < |p| && at.index < |p[at.file]|
    && p[at.file][at.index].name == query && p[at.file][at.index].meta.isDefined
  }

  /** Places, picked by positions. */
  ghost function Picked(places: seq<Place>, picks: seq<nat>): (r: seq<Place>)
    requires forall k | 0 <= k < |picks| :: picks[k] < |places|
    ensures |r| == |picks| && forall k | 0 <= k < |picks| :: r[k] == places[picks[k]]
  {
    seq(|picks|, k requires 0 <= k < |picks| => places[picks[k]])
  }

  lemma PickedInOrder(p: Parsed, events: seq<Event>, places: seq<Place>, picks: seq<nat>)
    requires ReportInOrder(p, events, places) && Increasing(picks)
    requires forall k | 0 <= k < |picks| :: picks[k] < |places|
    ensures forall j, k | 0 <= j < k < |picks| :: Earlier(Picked(places, picks)[j], Picked(places, picks)[k])
  {
    hide Earlier, Reports;
  }

  lemma PickedIsWanted(found: seq<Located>, p: Parsed, query: Text, events: seq<Event>, places: seq<Place>,
                       picks: seq<nat>, x: Place)
    requires Walked(found) && |p| == |found| && ReportInOrder(p, events, places)
    requires Picks(FoundIn(found, query), events, picks) && forall k | 0 <= k < |picks| :: picks[k] < |places|
    requires x in places <==> x.file < |p| && x.index < |p[x.file]|
    ensures x in Picked(places, picks) <==> WantedAt(p, query, x)
  {
    hide Gather, Earlier, FullPath;
    if x in places {
      var j :| 0 <= j < |places| && places[j] == x;
      assert Reports(p, events[j], x);
      assert j in picks <==> Yields(FoundIn(found, query), events, j);
      if j in picks {
        var k :| 0 <= k < |picks| && picks[k] == j;
        assert Picked(places, picks)[k] == x;
      }
    }
    if x in Picked(places, picks) {
      var k :| 0 <= k < |picks| && Picked(places, picks)[k] == x;
      assert picks[k] in picks;
      assert Yields(FoundIn(found, query), events, picks[k]);
      assert Reports(p, events[picks[k]], x);
    }
  }

  lemma PicksAreInside<A, B>(f: A -> seq<B>, s: seq<A>, picks: seq<nat>)
    requires Picks(f, s, picks)
    ensures Increasing(picks) && |picks| == |Gather(f, s)|
    ensures forall k | 0 <= k < |picks| :: picks[k] < |s| && f(s[picks[k]]) == [Gather(f, s)[k]]
  {
    hide Gather;
    forall k | 0 <= k < |picks| ensures picks[k] < |s| && f(s[picks[k]]) == [Gather(f, s)[k]] {
      assert YieldsJust(f, s, picks[k], Gather(f, s)[k]);
    }
  }

  lemma ExpectedByPlaces(found: seq<Located>, p: Parsed, query: Text) returns (at: seq<Place>)
    requires |p| == |found| && forall i | 0 <= i < |found| :: found[i].directory != []
    ensures FoundFiles(found, p) && |at| == |Expected(found, AllEvents(p), query)|
    ensures forall x: Place :: x in at <==> WantedAt(p, query, x)
    ensures forall j, k | 0 <= j < k < |at| :: Earlier(at[j], at[k])
    ensures forall k | 0 <= k < |at| :: Shows(found, p, Expected(found, AllEvents(p), query)[k], at[k])
  {
    hide Gather, AllEvents, Expected, Earlier, Shows, FullPath, Picks, WantedAt, FoundIn, Reports;
    FilesOfWalk(found, p);
    var events, f := AllEvents(p), FoundIn(found, query);
    ExpectedGathers(found, events, query);
    var places := AllInOrder(p);
    OneLineAtMost(found, events, query);
    var picks := GatherPicks(f, events);
    PicksAreInside(f, events, picks);
    at := Picked(places, picks);
    PickedInOrder(p, events, places, picks);
    forall x: Place ensures x in at <==> WantedAt(p, query, x) {
      PickedIsWanted(found, p, query, events, places, picks, x);
    }
    forall k | 0 <= k < |at| ensures Shows(found, p, Expected(found, events, query)[k], at[k]) {
      ShownByYield(found, p, query, events[picks[k]], places[picks[k]], Gather(f, events)[k]);
    }
  }

  /** Word for word: one line for every defined symbol of that name in every file found, file by file and in
      the order of the parser, and no other line. */
  lemma ExpectedInOrder(found: seq<Located>, p: Parsed, query: Text) returns (at: seq<Place>)
    requires |p| == |found| && forall i | 0 <= i < |found| :: found[i].directory != []
    ensures forall x: Place :: x in at <==>
      && x.file < |p| && x.index < |p[x.file]|
      && p[x.file][x.index].name == query && p[x.file][x.index].meta.isDefined
    ensures forall j, k | 0 <= j < k < |at| ::
      at[j].file < at[k].file || (at[j].file == at[k].file && at[j].index < at[k].index)
    ensures FoundFiles(found, p) && var lines := Expected(found, AllEvents(p), query);
      |lines| == |at| && forall k | 0 <= k < |at| ::
        && at[k].file < |found| && at[k].index < |p[at[k].file]|
        && lines[k].name == query && lines[k].meta == p[at[k].file][at[k].index].meta
        && var dir, name := found[at[k].file].directory, found[at[k].file].name;
        && lines[k].fullPath == if dir[|dir| - 1] == 47 then dir + name else dir + [47] + name
  {
    hide Expected, AllEvents;
    at := ExpectedByPlaces(found, p, query);
    forall k | 0 <= k < |at| ensures WantedAt(p, query, at[k]) {
      assert at[k] in at;
    }
    var lines := Expected(found, AllEvents(p), query);
    forall k | 0 <= k < |at| ensures Shows(found, p, lines[k], at[k]) && lines[k].name == query {
    }
  }

  lemma OneLineAtMost(found: seq<Located>, events: seq<Event>, query: Text)
    ensures forall i | 0 <= i < |events| :: |FoundIn(found, query)(events[i])| <= 1
  {
  }

  lemma AllInOrder(p: Parsed) returns (at: seq<Place>)
    ensures ReportInOrder(p, AllEvents(p), at)
    ensures forall x: Place :: x in at <==> x.file < |p| && x.index < |p[x.file]|
  {
    at := PassInOrder(p, |p|);
  }

  lemma ShownByYield(found: seq<Located>, p: Parsed, query: Text, e: Event, x: Place, line: Found)
    requires Walked(found) && |p| == |found| && Reports(p, e, x) && FoundIn(found, query)(e) == [line]
    ensures Shows(found, p, line, x)
  {
    assert [line][0] == line;
  }

  /** The file is the database of a walk that found these files, each holding these symbols. */
  ghost predicate DatabaseOf(bytes: Text, z: Codec, found: seq<Located>, p: Parsed,
                             c: Content, tt: TrigramTable, packed: seq<Text>)
  {
    && |p| == |found| && Registered(c.files, c.paths, found) && c.table == TableOf(AllEvents(p))
    && FormatFits(c, tt, packed) && ImageOf(bytes, c, z, tt, packed)
  }

  /** What a build of the walk can come to: its files and directories, the table of its symbols, a trigram
      table for their names, and the blocks compressed. */
  ghost predicate MayBuild(found: seq<Located>, p: Parsed, conf: Text, dict: Option<Text>, z: Codec,
                           c: Content, tt: TrigramTable, packed: seq<Text>)
  {
    && c == Content(conf, dict, c.files, c.paths, c.table) && Registered(c.files, c.paths, found)
    && Valid(c.table) && (|p| < U32 ==> c.table == TableOf(AllEvents(p)))
    && TrigramsFor(tt, c.table.keys) && CompressedAs(z, DictBytes(c), Plain(c, tt), packed)
  }

  /** No build of the walk outgrows the format. */
  ghost predicate WithinLimits(found: seq<Located>, p: Parsed, conf: Text, dict: Option<Text>, z: Codec) {
    forall c, tt, packed | MayBuild(found, p, conf, dict, z, c, tt, packed) :: FormatFits(c, tt, packed)
  }

  /** The limits are kept by every walk that is small enough, whatever the compressor makes of it. */
  lemma SmallWalksFit(found: seq<Located>, p: Parsed, conf: Text, dict: Option<Text>, z: Codec, k: nat)
    requires |p| == |found| && forall i | 0 <= i < |found| :: found[i].directory != []
    requires Bounded(z, k) && SmallEnough(found, AllEvents(p), conf, dict, k)
    ensures WithinLimits(found, p, conf, dict, z)
  {
    hide FormatFits, Bounded, SmallEnough, AllEvents;
    EventsOfFiles(p);
    FewFiles(found, AllEvents(p), conf, dict, k);
    forall c, tt, packed | MayBuild(found, p, conf, dict, z, c, tt, packed) ensures FormatFits(c, tt, packed) {
      hide *;
      BuildParts(found, p, conf, dict, z, c, tt, packed);
      ContentFits(found, AllEvents(p), c, tt, packed, z, k);
    }
  }

  lemma BuildParts(found: seq<Located>, p: Parsed, conf: Text, dict: Option<Text>, z: Codec,
                   c: Content, tt: TrigramTable, packed: seq<Text>)
    requires MayBuild(found, p, conf, dict, z, c, tt, packed) && |p| < U32
    ensures c.conf == conf && c.dict == dict && Registered(c.files, c.paths, found)
    ensures Valid(c.table) && c.table == TableOf(AllEvents(p))
    ensures TrigramsFor(tt, c.table.keys) && CompressedAs(z, DictBytes(c), Plain(c, tt), packed)
  {
  }

  lemma EventsOfFiles(p: Parsed)
    ensures forall e | e in AllEvents(p) :: e.ref.fileId < |p|
  {
    EventsKnown(p, UpTo(|p|));
  }

  lemma FewFiles(found: seq<Located>, events: seq<Event>, conf: Text, dict: Option<Text>, k: nat)
    requires Walked(found) && SmallEnough(found, events, conf, dict, k)
    ensures |found| < U32
  {
    hide Walked, Directories, NameBytes, SymbolBytes, Flatten;
  }

  /** Walk, parse and store: with any number of threads under any schedule, and however short the writes
      are, success leaves the database of the walk, as long as the limits of the format are kept. */
  method WalkAndBuild(db: DatabaseFile, found: seq<Located>, p: Parsed, hardware: nat, conf: Text, dict: Option<Text>,
                      z: Codec)
    returns (ok: bool, ghost c: Content, ghost tt: TrigramTable, ghost packed: seq<Text>)
    requires |p| == |found| && 1 <= hardware < 0x1_0000 && db.bytes == []
    requires forall i | 0 <= i < |found| :: found[i].directory != []
    modifies db`bytes, db`signals, db`failures
    ensures c == Content(conf, dict, c.files, c.paths, c.table) && Registered(c.files, c.paths, found)
    ensures Valid(c.table) && (|p| < U32 ==> c.table == TableOf(AllEvents(p)))
    ensures db.isOpen && db.failures == old(db.failures) ==> TrigramsFor(tt, c.table.keys)
    ensures ok <==> db.isOpen && db.failures == old(db.failures) && Compresses(z, DictBytes(c), Plain(c, tt))
    ensures ok ==> CompressedAs(z, DictBytes(c), Plain(c, tt), packed)
    ensures ok && FormatFits(c, tt, packed) ==> DatabaseOf(db.bytes, z, found, p, c, tt, packed)
    ensures ok && WithinLimits(found, p, conf, dict, z) ==> DatabaseOf(db.bytes, z, found, p, c, tt, packed)
  {
    hide ImageOf, FormatFits, TableOf, Registered, TrigramsFor, Compresses, CompressedAs, Plain;
    var files, cache := CollectFiles(found);
    FilesCollected(files, cache.idToStr, found);
    ok, c, tt, packed := BuildDatabase(db, files, cache.idToStr, p, hardware, conf, dict, z);
    FilesAreFew(c, tt, packed);
    assert ok ==> MayBuild(found, p, conf, dict, z, c, tt, packed);
  }

  lemma FilesAreFew(c: Content, tt: TrigramTable, packed: seq<Text>)
    requires Valid(c.table)
    ensures FormatFits(c, tt, packed) ==> |c.files| < U32
  {
    hide Flatten, SymbolsFit, PathsFit;
  }

  lemma FilesCollected(files: seq<FileInfo>, paths: seq<Text>, found: seq<Located>)
    requires Registered(files, paths, found)
    ensures |files| == |found| && Walked(found)
  {
  }

  /** Main theorem: looking a name up in the database of a walk prints exactly what a linear scan over
      all symbols of all files found would print, in the same order. */
  method FindSymbol(bytes: Text, z: Codec, query: Text, ghost found: seq<Located>, ghost p: Parsed,
                    ghost c: Content, ghost tt: TrigramTable, ghost packed: seq<Text>)
    returns (r: Option<seq<LookupResult>>)
    requires DatabaseOf(bytes, z, found, p, c, tt, packed) && Lossless(z)
    ensures query == [] ==> r == None
    ensures FoundFiles(found, p)
    ensures query != [] || NoEmptyName(p) ==> Printed(r) == Expected(found, AllEvents(p), query)
  {
    hide ImageOf, Plain, HeaderOf, FormatFits, TableOf, Expected, Scan, AllEvents, Registered;
    DatabaseIsScanned(bytes, z, found, p, c, tt, packed, query);
    ImagePlain(bytes, c, z, tt, packed);
    var rdr := new DatabaseReader(bytes);
    var ok := rdr.DecompressDatabase(z);
    if !ok {
      assert false;
    }
    LoadedImageShows(rdr, z, c, tt, packed);
    ghost var ids;
    r, ids := rdr.FindSymbolReferences(query, Wanted(query), c, tt);
    if query != [] {
      QueryEqualsScan(r, ids, c, AllEvents(p), query);
    } else {
      NothingToFindIffNoEmptyName(c.files, c.paths, AllEvents(p));
    }
  }

  /** No defined symbol has an empty name: the parser skips those. */
  ghost predicate NoEmptyName(p: Parsed) {
    !SomeEmptyName(AllEvents(p))
  }

  ghost predicate FoundFiles(found: seq<Located>, p: Parsed) {
    && Walked(found)
    && (forall e | e in AllEvents(p) :: e.ref.fileId < |found|)
  }

  lemma DatabaseIsScanned(bytes: Text, z: Codec, found: seq<Located>, p: Parsed, c: Content, tt: TrigramTable,
                          packed: seq<Text>, query: Text)
    requires DatabaseOf(bytes, z, found, p, c, tt, packed)
    ensures Valid(c.table) && FoundFiles(found, p) && WellScanned(c, AllEvents(p))
    ensures Scan(c.files, c.paths, AllEvents(p), query) == Expected(found, AllEvents(p), query)
  {
    hide ImageOf, FormatFits, Registered, TableOf, Scan, Expected, AllEvents;
    ImageParts(bytes, c, z, tt, packed);
    EventsOfFiles(p);
    FilesCollected(c.files, c.paths, found);
    PathsAreFew(c, tt, packed);
    ScanIsExpected(found, c.files, c.paths, AllEvents(p), query);
    Slashed(c.files, c.paths, found);
  }

  lemma Slashed(files: seq<FileInfo>, paths: seq<Text>, found: seq<Located>)
    requires Registered(files, paths, found)
    ensures forall i | 0 <= i < |paths| :: EndsInSlash(paths[i])
  {
    hide Directories;
  }

  lemma PathsAreFew(c: Content, tt: TrigramTable, packed: seq<Text>)
    requires Valid(c.table) && FormatFits(c, tt, packed)
    ensures |c.paths| <= U32
  {
    hide Flatten, SymbolsFit, FilesFit;
  }

  // ---- From the walk to the answer ------------------------------------------------------------------

  lemma CompressesThese(z: Codec, dict: Text, plain: seq<Text>)
    requires CompressesAll(z)
    ensures Compresses(z, dict, plain)
  {
    forall i | 0 <= i < |plain| ensures Compress(z, DictFor(dict, i), plain[i]).Some? {
      assert z.compress(DictFor(dict, i), plain[i][..|plain[i]| % U32]).Some?;
    }
  }

  /** One run of the program that builds and a later one that asks.  For every small walk, if no system
      call failed and the compressor took every block, the answer is the linear scan of what was found. */
  method BuildThenFind(db: DatabaseFile, found: seq<Located>, p: Parsed, hardware: nat, conf: Text, dict: Option<Text>,
                       z: Codec, query: Text, ghost k: nat)
    returns (ok: bool, r: Option<seq<LookupResult>>)
    requires |p| == |found| && 1 <= hardware < 0x1_0000 && db.bytes == []
    requires forall i | 0 <= i < |found| :: found[i].directory != []
    requires Lossless(z) && Bounded(z, k) && SmallEnough(found, AllEvents(p), conf, dict, k)
    modifies db`bytes, db`signals, db`failures
    ensures db.isOpen && db.failures == old(db.failures) && CompressesAll(z) ==> ok
    ensures FoundFiles(found, p)
    ensures ok && (query != [] || NoEmptyName(p)) ==> Printed(r) == Expected(found, AllEvents(p), query)
  {
    hide *;
    SmallWalksFit(found, p, conf, dict, z, k);
    FilesOfWalk(found, p);
    ghost var c, tt, packed;
    ok, c, tt, packed := WalkAndBuild(db, found, p, hardware, conf, dict, z);
    if CompressesAll(z) {
      CompressesThese(z, DictBytes(c), Plain(c, tt));
    }
    r := None;
    if ok {
      r := FindSymbol(db.bytes, z, query, found, p, c, tt, packed);
    }
  }

  lemma FilesOfWalk(found: seq<Located>, p: Parsed)
    requires |p| == |found| && forall i | 0 <= i < |found| :: found[i].directory != []
    ensures FoundFiles(found, p)
  {
    hide AllEvents;
    EventsOfFiles(p);
  }
}
