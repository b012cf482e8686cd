/** When a walk surely stays within the 32-bit limits of the format: a bound on the size of the database
    in terms of what was found. */
module FormatLimits {
  import opened Bytes
  import opened Packing
  import opened SymbolTables
  import opened TrigramIndex
  import opened DatabaseFormat
  import opened DatabaseStore
  import opened DatabaseImage
  import opened FileScanner
  import H = DatabaseHeader

  // ---- Sizes of what was found --------------------------------------------------------------------

  function NameBytes(found: seq<Located>): nat {
    if found == [] then 0 else NameBytes(found[..|found| - 1]) + |found[|found| - 1].name|
  }

  function SymbolBytes(events: seq<Event>): nat {
    if events == [] then 0 else SymbolBytes(events[..|events| - 1]) + |events[|events| - 1].name|
  }

  /** More slots than any table has. */
  const SLOT_LIMIT := 0x200_0000

  /** At least as many bytes as the nine blocks hold before compression. */
  ghost function RawSize(found: seq<Located>, events: seq<Event>): nat
    requires Walked(found)
  {
    var symbols := SymbolBytes(events);
    FILE_SIZE * |found| + NameBytes(found)
    + PATH_SIZE * |found| + |Flatten(Directories(found))|
    + (SYMBOL_SIZE + REF_SIZE) * |events| + symbols
    + SLOT_SIZE * SLOT_LIMIT + 4 * (symbols + 2 * |events|)
  }

  /** The library takes every block. */
  ghost predicate CompressesAll(z: Codec) {
    forall d, x :: z.compress(d, x).Some?
  }

  /** Compressing adds at most one byte to 256 and k bytes more: the output buffer is no larger. */
  ghost predicate Bounded(z: Codec, k: nat) {
    forall d, x :: z.compress(d, x).Some? ==> 256 * |z.compress(d, x).value| <= 257 * |x| + 256 * k
  }

  /** Even if every block grows as much as it can, the file stays below 4 GiB. */
  ghost predicate SmallEnough(found: seq<Located>, events: seq<Event>, conf: Text, dict: Option<Text>, k: nat)
    requires Walked(found)
  {
    && (forall e | e in events :: e.ref.meta.offset < U32)
    && 256 * (H.HEADER_SIZE + |conf| + (if dict.Some? then |dict.value| else 0))
       + 257 * RawSize(found, events) + BLOCKS * 256 * k < 256 * U32
  }

  /** In figures: five million files with 250 MB of names in directories of 250 MB, and thirty million
      references with 300 MB of names, are small enough. */
  lemma MillionsFit(found: seq<Located>, events: seq<Event>, conf: Text, dict: Option<Text>, k: nat)
    requires Walked(found) && forall e | e in events :: e.ref.meta.offset < 0x1_0000_0000
    requires |found| <= 5_000_000 && NameBytes(found) <= 250_000_000
    requires |Flatten(Directories(found))| <= 250_000_000
    requires |events| <= 30_000_000 && SymbolBytes(events) <= 300_000_000
    requires |conf| <= 100_000_000 && (dict.Some? ==> |dict.value| <= 100_000_000) && k <= 1024
    ensures SmallEnough(found, events, conf, dict, k)
  {
    hide NameBytes, SymbolBytes, Flatten, Directories;
  }

  /** Storing a block as it is already keeps every promise asked of the compression library. */
  lemma SomeCodec() returns (z: Codec)
    ensures Lossless(z) && Bounded(z, 0) && CompressesAll(z)
  {
    z := Codec((dict, data) => Some(data), (dict, data, size) => Some(data));
  }

  // ---- Files and paths ----------------------------------------------------------------------------

  lemma {:induction false} FileNamesSize(files: seq<FileInfo>, found: seq<Located>)
    requires |files| == |found| && forall i | 0 <= i < |files| :: files[i].name == found[i].name
    ensures |Flatten(FileNames(files))| == NameBytes(found)
  {
    if files != [] {
      var n := |files| - 1;
      FileNamesSize(files[..n], found[..n]);
      assert FileNames(files)[..n] == FileNames(files[..n]);
    }
  }

  // ---- Symbols ------------------------------------------------------------------------------------

  lemma {:induction false} FirstSeenSize(events: seq<Event>)
    ensures |FirstSeen(events)| <= |events| && |Flatten(FirstSeen(events))| <= SymbolBytes(events)
  {
    hide Flatten;
    if events == [] {
      FlattenNothing<Byte>();
    } else {
      var rest, name := events[..|events| - 1], events[|events| - 1].name;
      FirstSeenSize(rest);
      FlattenSnoc(FirstSeen(rest), name);
    }
  }

  lemma {:induction false} MetadataSize(t: Table, n: nat)
    requires Valid(t) && n <= |t.keys|
    ensures |Flatten(MetadataRows(t)[..n])| == REF_SIZE * CountRefs(t, n)
  {
    hide Flatten, RefBytes;
    if n == 0 {
      FlattenNothing<Byte>();
    } else {
      MetadataSize(t, n - 1);
      FlattenTake(MetadataRows(t), n - 1);
      WideLength(RefRows(t.refs[t.keys[n - 1]]), REF_SIZE);
    }
  }

  lemma {:induction false} RefsNamedFit(events: seq<Event>, name: Text)
    requires forall e | e in events :: RefFits(e.ref)
    ensures RefsFit(RefsNamed(events, name))
  {
    hide RefFits;
    if events != [] {
      var rest, last := events[..|events| - 1], events[|events| - 1];
      assert forall e | e in rest :: e in events;
      assert last in events;
      RefsNamedFit(rest, name);
    }
  }

  lemma SymbolsOfEventsFit(events: seq<Event>)
    requires forall e | e in events :: RefFits(e.ref)
    requires SymbolBytes(events) < U32 && SYMBOL_SIZE * |events| < U32
    ensures var t := TableOf(events);
      && SymbolsFit(t) && |t.keys| <= |events| && |Flatten(t.keys)| <= SymbolBytes(events)
      && |Flatten(MetadataRows(t))| == REF_SIZE * |events|
  {
    hide Flatten, RefFits, RefsFit, MetadataRows;
    var t := TableOf(events);
    FirstSeenSize(events);
    EveryEventStoredOnce(events);
    MetadataSize(t, |t.keys|);
    TakeAll(MetadataRows(t));
    forall n | n in t.refs ensures RefsFit(t.refs[n]) {
      RefsNamedFit(events, n);
    }
  }

  // ---- Blocks -------------------------------------------------------------------------------------

  lemma {:induction false} PackedSize(z: Codec, dict: Text, plain: seq<Text>, packed: seq<Text>, k: nat, n: nat)
    requires CompressedAs(z, dict, plain, packed) && Bounded(z, k) && n <= |packed|
    requires forall i | 0 <= i < |plain| :: |plain[i]| < U32
    ensures 256 * Offset(packed, n) <= 257 * Offset(plain, n) + n * 256 * k
  {
    if n > 0 {
      PackedSize(z, dict, plain, packed, k, n - 1);
      assert plain[n - 1][..|plain[n - 1]| % U32] == plain[n - 1];
      assert n * 256 * k == (n - 1) * 256 * k + 256 * k;
    }
  }

  lemma NineOffsets(rows: seq<Text>)
    requires |rows| == 9
    ensures Offset(rows, 9) == |rows[0]| + |rows[1]| + |rows[2]| + |rows[3]| + |rows[4]| + |rows[5]| + |rows[6]|
                               + |rows[7]| + |rows[8]|
  {
    PackedOffsets(rows, []);
  }

  lemma PlainSizes(c: Content, tt: TrigramTable)
    requires Valid(c.table)
    ensures var plain := Plain(c, tt);
      && |plain[FILE_INDEX]| == FILE_SIZE * |c.files| && |plain[FILE_NAMES]| == |Flatten(FileNames(c.files))|
      && |plain[PATH_INDEX]| == PATH_SIZE * |c.paths| && |plain[PATH_NAMES]| == |Flatten(c.paths)|
      && |plain[SYMBOL_INDEX]| == SYMBOL_SIZE * |c.table.keys| && |plain[SYMBOL_NAMES]| == |Flatten(c.table.keys)|
      && |plain[SYMBOL_METADATA]| == |Flatten(MetadataRows(c.table))|
      && |plain[TRIGRAM_SLOTS]| == SLOT_SIZE * |tt.slots| && |plain[TRIGRAM_POSTINGS]| == 4 * |tt.postings|
  {
    hide Flatten, FileRow, PathRow, SymbolRow, SlotBytes, FileRows, PathRows, SymbolRows, SlotRows, PostingRows;
    WideLength(FileRows(c.files), FILE_SIZE);
    WideLength(PathRows(c.paths), PATH_SIZE);
    WideLength(SymbolRows(c.table), SYMBOL_SIZE);
    WideLength(SlotRows(tt.slots), SLOT_SIZE);
    WideLength(PostingRows(tt.postings), 4);
  }

  lemma FilesAndPathsFit(files: seq<FileInfo>, paths: seq<Text>, found: seq<Located>)
    requires Registered(files, paths, found)
    requires FILE_SIZE * |found| + NameBytes(found) + |Flatten(Directories(found))| < U32
    ensures FilesFit(files) && PathsFit(paths) && |paths| <= |files| == |found|
    ensures |Flatten(FileNames(files))| == NameBytes(found) && |Flatten(paths)| == |Flatten(Directories(found))|
  {
    hide Flatten, Directories;
    forall i | 0 <= i < |files| ensures files[i].name == found[i].name && files[i].pathId < U32 {
      assert Placed(files[i], paths, found[i]);
    }
    FileNamesSize(files, found);
  }

  lemma TableFits(events: seq<Event>, tt: TrigramTable)
    requires forall e | e in events :: RefFits(e.ref)
    requires SYMBOL_SIZE * |events| + 4 * (SymbolBytes(events) + 2 * |events|) < U32
    requires TrigramsFor(tt, TableOf(events).keys)
    ensures var t := TableOf(events);
      && SymbolsFit(t) && |t.keys| <= |events| && |Flatten(t.keys)| <= SymbolBytes(events)
      && |Flatten(MetadataRows(t))| == REF_SIZE * |events|
    ensures |tt.slots| <= SLOT_LIMIT && |tt.postings| <= SymbolBytes(events) + 2 * |events|
  {
    hide TrigramsFor, SymbolsFit, TableOf, Flatten, RefFits;
    SymbolsOfEventsFit(events);
    TableIsSmall(tt, TableOf(events).keys);
    PostingCountIsSmall(TableOf(events).keys);
  }

  lemma BlocksFit(z: Codec, k: nat, dict: Text, plain: seq<Text>, packed: seq<Text>, size: nat)
    requires |plain| == BLOCKS && CompressedAs(z, dict, plain, packed) && Bounded(z, k)
    requires Offset(plain, BLOCKS) <= size && size < U32
    ensures 256 * |Flatten(packed)| <= 257 * size + BLOCKS * 256 * k
  {
    hide Bounded, CompressedAs;
    PackedOffsets(plain, []);
    forall i | 0 <= i < |plain| ensures |plain[i]| < U32 {
      FlattenAt(plain, i);
    }
    CompressedLength(z, dict, plain, packed);
    PackedSize(z, dict, plain, packed, k, BLOCKS);
    PackedOffsets(packed, []);
  }

  lemma CompressedLength(z: Codec, dict: Text, plain: seq<Text>, packed: seq<Text>)
    requires CompressedAs(z, dict, plain, packed)
    ensures |plain| == |packed|
  {
  }

  /** The content recorded for a small walk keeps every limit of the format. */
  lemma ContentFits(found: seq<Located>, events: seq<Event>, c: Content, tt: TrigramTable, packed: seq<Text>, z: Codec,
                    k: nat)
    requires Registered(c.files, c.paths, found) && c.table == TableOf(events) && TrigramsFor(tt, c.table.keys)
    requires CompressedAs(z, DictBytes(c), Plain(c, tt), packed) && Bounded(z, k)
    requires forall e | e in events :: e.ref.fileId < |found|
    requires SmallEnough(found, events, c.conf, c.dict, k)
    ensures FormatFits(c, tt, packed)
  {
    hide Flatten, Plain, TrigramsFor, CompressedAs, Bounded, FilesFit, PathsFit, SymbolsFit, TableOf, Directories;
    hide Registered;
    WalkIsRegistered(c.files, c.paths, found);
    FilesAndPathsFit(c.files, c.paths, found);
    TableFits(events, tt);
    PlainSizes(c, tt);
    NineOffsets(Plain(c, tt));
    BlocksFit(z, k, DictBytes(c), Plain(c, tt), packed, RawSize(found, events));
  }

  lemma WalkIsRegistered(files: seq<FileInfo>, paths: seq<Text>, found: seq<Located>)
    requires Registered(files, paths, found)
    ensures Walked(found)
  {
  }
}
