/** Building the compressed blocks and laying them out in the database file. */
module DatabaseStore {
  import opened Bytes
  import opened Packing
  import opened SymbolTables
  import opened Trigrams
  import opened OpenAddressing
  import opened TrigramIndex
  import opened DatabaseFormat
  import opened FileStore
  import H = DatabaseHeader

  datatype Option<+T> = None | Some(value: T)

  /** The compression library: a dictionary (empty for none) and data in, data out.  Decompression is
      also told the length to expect. */
  datatype Codec = Codec(compress: (Text, Text) -> Option<Text>, decompress: (Text, Text, nat) -> Option<Text>)

  /** The one law of the library that is used. */
  ghost predicate Lossless(z: Codec) {
    forall d, x :: z.compress(d, x).Some? ==> z.decompress(d, z.compress(d, x).value, |x|) == Some(x)
  }

  /** The compressor's size parameter is 32 bits wide. */
  function Compress(z: Codec, dict: Text, data: Text): Option<Text> {
    z.compress(dict, data[..|data| % U32])
  }

  /** Everything a database is built from. */
  datatype Content = Content(conf: Text, dict: Option<Text>, files: seq<FileInfo>, paths: seq<Text>, table: Table)

  function DictBytes(c: Content): Text {
    if c.dict.Some? then c.dict.value else []
  }

  /** The trigram table in memory.  codes maps every code to its posting list. */
  datatype TrigramTable = TrigramTable(slots: seq<Slot>, postings: seq<nat>, codes: map<nat, seq<nat>>, bits: nat)

  /** The table of the codes of the names, of the size the load asks for, with one posting for every name
      and every distinct code of it. */
  ghost predicate TrigramsFor(tt: TrigramTable, names: seq<Text>) {
    && Collected(tt.codes, names)
    && LeastCapacity(|tt.codes|, tt.bits) && tt.bits <= 25 && |tt.slots| == Pow2(tt.bits) && |tt.codes| < |tt.slots|
    && |tt.postings| == PostingCount(names)
    && TableFor(tt.slots, HomeOf(tt.bits), tt.postings, tt.codes)
  }

  // ---- Blocks in file order -----------------------------------------------------------------------

  const FILE_INDEX := 0
  const FILE_NAMES := 1
  const PATH_INDEX := 2
  const PATH_NAMES := 3
  const SYMBOL_INDEX := 4
  const SYMBOL_NAMES := 5
  const SYMBOL_METADATA := 6
  const TRIGRAM_SLOTS := 7
  const TRIGRAM_POSTINGS := 8
  const BLOCKS := 9

  ghost function Plain(c: Content, tt: TrigramTable): (r: seq<Text>)
    requires Valid(c.table)
    ensures |r| == BLOCKS
  {
    [Flatten(FileRows(c.files)), Flatten(FileNames(c.files)),
     Flatten(PathRows(c.paths)), Flatten(c.paths),
     Flatten(SymbolRows(c.table)), Flatten(c.table.keys), Flatten(MetadataRows(c.table)),
     Flatten(SlotRows(tt.slots)), Flatten(PostingRows(tt.postings))]
  }

  /** Only the name blobs are compressed with the dictionary. */
  function DictFor(dict: Text, i: nat): Text {
    if i == FILE_NAMES || i == PATH_NAMES || i == SYMBOL_NAMES then dict else []
  }

  ghost predicate CompressedAs(z: Codec, dict: Text, plain: seq<Text>, packed: seq<Text>) {
    |plain| == |packed| && forall i | 0 <= i < |packed| :: Compress(z, DictFor(dict, i), plain[i]) == Some(packed[i])
  }

  ghost predicate Compresses(z: Codec, dict: Text, plain: seq<Text>) {
    forall i | 0 <= i < |plain| :: Compress(z, DictFor(dict, i), plain[i]).Some?
  }

  /** Where the first block starts. */
  function BlocksStart(c: Content): nat {
    H.HEADER_SIZE + |c.conf| + |DictBytes(c)|
  }

  ghost function StoredFrom(start: nat, plain: seq<Text>, packed: seq<Text>, i: nat): H.Stored
    requires i < |packed| == |plain|
  {
    H.Stored(start + Offset(packed, i), |packed[i]|, |plain[i]|)
  }

  ghost function FileHeader(start: nat, plain: seq<Text>, packed: seq<Text>, count: nat): H.TableHeader
    requires |packed| == |plain| == BLOCKS
  {
    H.TableHeader(StoredFrom(start, plain, packed, FILE_INDEX), StoredFrom(start, plain, packed, FILE_NAMES),
                  |packed[FILE_INDEX]| + |packed[FILE_NAMES]|, count)
  }

  ghost function PathHeader(start: nat, plain: seq<Text>, packed: seq<Text>, count: nat): H.TableHeader
    requires |packed| == |plain| == BLOCKS
  {
    H.TableHeader(StoredFrom(start, plain, packed, PATH_INDEX), StoredFrom(start, plain, packed, PATH_NAMES),
                  |packed[PATH_INDEX]| + |packed[PATH_NAMES]|, count)
  }

  ghost function SymbolIndexHeader(start: nat, plain: seq<Text>, packed: seq<Text>, count: nat): H.SymbolHeader
    requires |packed| == |plain| == BLOCKS
  {
    H.SymbolHeader(StoredFrom(start, plain, packed, SYMBOL_INDEX), StoredFrom(start, plain, packed, SYMBOL_NAMES),
                   StoredFrom(start, plain, packed, SYMBOL_METADATA),
                   |packed[SYMBOL_INDEX]| + |packed[SYMBOL_NAMES]| + |packed[SYMBOL_METADATA]|, count)
  }

  ghost function TrigramIndexHeader(start: nat, plain: seq<Text>, packed: seq<Text>, tt: TrigramTable, names: seq<Text>)
    : H.TrigramHeader
    requires |packed| == |plain| == BLOCKS
  {
    H.TrigramHeader(StoredFrom(start, plain, packed, TRIGRAM_SLOTS), |tt.slots|,
                    StoredFrom(start, plain, packed, TRIGRAM_POSTINGS), |tt.postings|, |tt.codes|, NonEmptyCount(names))
  }

  /** The header of a complete database. */
  ghost function HeaderFor(c: Content, tt: TrigramTable, packed: seq<Text>): H.Header
    requires Valid(c.table) && |packed| == BLOCKS
  {
    var plain, start := Plain(c, tt), BlocksStart(c);
    H.Header(
      H.MAGIC, H.VERSION, H.HEADER_SIZE, |c.conf|,
      if c.dict.Some? then H.HEADER_SIZE + |c.conf| else 0, |DictBytes(c)|,
      FileHeader(start, plain, packed, |c.files|), PathHeader(start, plain, packed, |c.paths|),
      SymbolIndexHeader(start, plain, packed, |c.table.keys|),
      TrigramIndexHeader(start, plain, packed, tt, c.table.keys))
  }

  /** The file is the header, the configuration, the dictionary and the nine blocks, with no gap and no
      overlap, and the header tells where everything is. */
  ghost predicate ImageOf(bytes: Text, c: Content, z: Codec, tt: TrigramTable, packed: seq<Text>) {
    && Valid(c.table) && TrigramsFor(tt, c.table.keys)
    && |packed| == BLOCKS && CompressedAs(z, DictBytes(c), Plain(c, tt), packed)
    && bytes == H.EncodeHeader(HeaderFor(c, tt, packed)) + c.conf + DictBytes(c) + Flatten(packed)
  }

  /** The limits of the 32-bit format: blobs, records and the file itself stay below 4 GiB. */
  ghost predicate FormatFits(c: Content, tt: TrigramTable, packed: seq<Text>)
    requires Valid(c.table)
  {
    && FilesFit(c.files) && PathsFit(c.paths) && SymbolsFit(c.table) && 4 * |tt.postings| < U32
    && H.HEADER_SIZE + |c.conf| + |DictBytes(c)| + |Flatten(packed)| < U32
  }

  // ---- Building the blocks ------------------------------------------------------------------------

  datatype TableBuilt = TableBuilt(index: Text, names: Text, indexLength: nat, namesLength: nat, count: nat)

  datatype SymbolBuilt = SymbolBuilt(
    index: Text, names: Text, metadata: Text, indexLength: nat, namesLength: nat, metadataLength: nat, count: nat)

  datatype TrigramBuilt = TrigramBuilt(
    slots: Text, postings: Text, slotsLength: nat, postingsLength: nat, postingsCount: nat, capacity: nat,
    symbolsCount: nat, trigramsCount: nat)

  ghost predicate BuiltTable(b: TableBuilt, z: Codec, dict: Text, index: Text, names: Text, count: nat) {
    && Compress(z, [], index) == Some(b.index) && Compress(z, dict, names) == Some(b.names)
    && b.indexLength == |index| && b.namesLength == |names| && b.count == count
  }

  ghost predicate BuiltSymbols(b: SymbolBuilt, z: Codec, dict: Text, t: Table)
    requires Valid(t)
  {
    var index, names, metadata := Flatten(SymbolRows(t)), Flatten(t.keys), Flatten(MetadataRows(t));
    && Compress(z, [], index) == Some(b.index) && Compress(z, dict, names) == Some(b.names)
    && Compress(z, [], metadata) == Some(b.metadata)
    && b.indexLength == |index| && b.namesLength == |names| && b.metadataLength == |metadata| && b.count == |t.keys|
  }

  ghost predicate BuiltTrigrams(b: TrigramBuilt, z: Codec, tt: TrigramTable, names: seq<Text>) {
    var slots, postings := Flatten(SlotRows(tt.slots)), Flatten(PostingRows(tt.postings));
    && Compress(z, [], slots) == Some(b.slots) && Compress(z, [], postings) == Some(b.postings)
    && b.slotsLength == |slots| && b.postingsLength == |postings|
    && b.postingsCount == |tt.postings| && b.capacity == |tt.slots|
    && b.symbolsCount == NonEmptyCount(names) && b.trigramsCount == |tt.codes|
  }

  method CompressTable(z: Codec, dict: Text, index: Text, names: Text, count: nat) returns (r: Option<TableBuilt>)
    ensures r.Some? <==> Compress(z, [], index).Some? && Compress(z, dict, names).Some?
    ensures r.Some? ==> BuiltTable(r.value, z, dict, index, names, count)
  {
    var a := Compress(z, [], index);
    if a.None? {
      return None;
    }
    var b := Compress(z, dict, names);
    if b.None? {
      return None;
    }
    return Some(TableBuilt(a.value, b.value, |index|, |names|, count));
  }

  method BuildFileTable(files: seq<FileInfo>, z: Codec, dict: Text) returns (r: Option<TableBuilt>)
    ensures r.Some? ==> BuiltTable(r.value, z, dict, Flatten(FileRows(files)), Flatten(FileNames(files)), |files|)
    ensures r.None? ==>
      Compress(z, [], Flatten(FileRows(files))).None? || Compress(z, dict, Flatten(FileNames(files))).None?
  {
    hide Flatten, Pack;
    ghost var rows, blob := FileRows(files), FileNames(files);
    var offset, index, names := 0, [], [];
    FlattenNothing<Byte>();
    for i := 0 to |files|
      invariant offset == Offset(blob, i) && index == Flatten(rows[..i]) && names == Flatten(blob[..i])
    {
      FlattenTake(rows, i);
      FlattenTake(blob, i);
      index := index + Pack(FILE_WIDTHS, [files[i].pathId, offset, |files[i].name|]);
      offset := offset + |files[i].name|;
      names := names + files[i].name;
    }
    TakeAll(rows);
    TakeAll(blob);
    r := CompressTable(z, dict, index, names, |files|);
  }

  method BuildPathTable(paths: seq<Text>, z: Codec, dict: Text) returns (r: Option<TableBuilt>)
    ensures r.Some? ==> BuiltTable(r.value, z, dict, Flatten(PathRows(paths)), Flatten(paths), |paths|)
    ensures r.None? ==> Compress(z, [], Flatten(PathRows(paths))).None? || Compress(z, dict, Flatten(paths)).None?
  {
    hide Flatten, Pack;
    FlattenNothing<Byte>();
    var offset, index, names := 0, [], [];
    for i := 0 to |paths|
      invariant offset == Offset(paths, i)
      invariant index == Flatten(PathRows(paths)[..i]) && names == Flatten(paths[..i])
    {
      FlattenTake(PathRows(paths), i);
      FlattenTake(paths, i);
      index := index + Pack(PATH_WIDTHS, [offset, |paths[i]|]);
      offset := offset + |paths[i]|;
      names := names + paths[i];
    }
    TakeAll(PathRows(paths));
    TakeAll(paths);
    r := CompressTable(z, dict, index, names, |paths|);
  }

  method AppendRefs(blob: Text, refs: seq<Ref>) returns (r: Text, length: nat)
    ensures r == blob + Flatten(RefRows(refs)) && length == |Flatten(RefRows(refs))|
  {
    hide Flatten, Pack;
    FlattenNothing<Byte>();
    r, length := blob, 0;
    for j := 0 to |refs|
      invariant r == blob + Flatten(RefRows(refs)[..j]) && length == |Flatten(RefRows(refs)[..j])|
    {
      FlattenTake(RefRows(refs), j);
      length := length + REF_SIZE;
      r := r + RefBytes(refs[j]);
    }
    TakeAll(RefRows(refs));
  }

  method BuildSymbolBlocks(t: Table) returns (index: Text, names: Text, metadata: Text)
    requires Valid(t)
    ensures index == Flatten(SymbolRows(t)) && names == Flatten(t.keys) && metadata == Flatten(MetadataRows(t))
  {
    hide Flatten, Pack, SymbolRow, SymbolRows, MetadataRows, RefRows;
    FlattenNothing<Byte>();
    ghost var rows, metas := SymbolRows(t), MetadataRows(t);
    index, names, metadata := [], [], [];
    var nameOffset, metadataOffset := 0, 0;
    for i := 0 to |t.keys|
      invariant nameOffset == Offset(t.keys, i) && metadataOffset == Offset(metas, i)
      invariant index == Flatten(rows[..i]) && names == Flatten(t.keys[..i]) && metadata == Flatten(metas[..i])
    {
      var name := t.keys[i];
      SymbolBlocksGrow(t, i, rows, metas);
      var metadataLength;
      metadata, metadataLength := AppendRefs(metadata, t.refs[name]);
      index := index + Pack(SYMBOL_WIDTHS, [nameOffset, |name|, metadataOffset, metadataLength]);
      nameOffset, metadataOffset := nameOffset + |name|, metadataOffset + metadataLength;
      names := names + name;
    }
    TakeAll(rows);
    TakeAll(t.keys);
    TakeAll(metas);
  }

  lemma SymbolBlocksGrow(t: Table, i: nat, rows: seq<Text>, metas: seq<Text>)
    requires Valid(t) && i < |t.keys| && rows == SymbolRows(t) && metas == MetadataRows(t)
    ensures metas[i] == Flatten(RefRows(t.refs[t.keys[i]]))
    ensures rows[i] == Pack(SYMBOL_WIDTHS, [Offset(t.keys, i), |t.keys[i]|, Offset(metas, i), |metas[i]|])
    ensures Flatten(rows[..i + 1]) == Flatten(rows[..i]) + rows[i]
    ensures Flatten(t.keys[..i + 1]) == Flatten(t.keys[..i]) + t.keys[i]
    ensures Flatten(metas[..i + 1]) == Flatten(metas[..i]) + metas[i]
  {
    hide Flatten;
    FlattenTake(rows, i);
    FlattenTake(t.keys, i);
    FlattenTake(metas, i);
  }

  method BuildSymbolIndex(t: Table, z: Codec, dict: Text) returns (r: Option<SymbolBuilt>)
    requires Valid(t)
    ensures r.Some? ==> BuiltSymbols(r.value, z, dict, t)
    ensures r.None? ==>
      || Compress(z, [], Flatten(SymbolRows(t))).None? || Compress(z, dict, Flatten(t.keys)).None?
      || Compress(z, [], Flatten(MetadataRows(t))).None?
  {
    var index, names, metadata := BuildSymbolBlocks(t);
    var a := Compress(z, [], index);
    if a.None? {
      return None;
    }
    var b := Compress(z, dict, names);
    if b.None? {
      return None;
    }
    var c := Compress(z, [], metadata);
    if c.None? {
      return None;
    }
    return Some(SymbolBuilt(a.value, b.value, c.value, |index|, |names|, |metadata|, |t.keys|));
  }

  method BuildTrigramBlocks(slots: seq<Slot>, postings: seq<nat>) returns (slotBlock: Text, postingBlock: Text)
    ensures slotBlock == Flatten(SlotRows(slots)) && postingBlock == Flatten(PostingRows(postings))
  {
    slotBlock, postingBlock := [], [];
    for i := 0 to |slots|
      invariant slotBlock == Flatten(SlotRows(slots)[..i])
    {
      FlattenTake(SlotRows(slots), i);
      slotBlock := slotBlock + SlotBytes(slots[i]);
    }
    TakeAll(SlotRows(slots));
    for i := 0 to |postings|
      invariant postingBlock == Flatten(PostingRows(postings)[..i])
    {
      FlattenTake(PostingRows(postings), i);
      postingBlock := postingBlock + LE(4, postings[i]);
    }
    TakeAll(PostingRows(postings));
  }

  method BuildTrigramIndex(names: seq<Text>, z: Codec) returns (r: Option<TrigramBuilt>, ghost tt: TrigramTable)
    ensures TrigramsFor(tt, names)
    ensures r.Some? ==> BuiltTrigrams(r.value, z, tt, names)
    ensures r.None? ==>
      Compress(z, [], Flatten(SlotRows(tt.slots))).None? || Compress(z, [], Flatten(PostingRows(tt.postings))).None?
  {
    var builder := CollectPostings(names);
    var m := builder.trigramToSymbols;
    CollectedCodesAreSmall(m, names);
    var entries, total := ListEntries(m);
    var slots, postings, capacity, bits := FillTable(entries, m);
    PostingTotalIsCount(entries, m, names);
    tt := TrigramTable(slots[..], postings, m, bits);
    var slotBlock, postingBlock := BuildTrigramBlocks(slots[..], postings);
    var a := Compress(z, [], slotBlock);
    if a.None? {
      return None, tt;
    }
    var b := Compress(z, [], postingBlock);
    if b.None? {
      return None, tt;
    }
    return Some(TrigramBuilt(a.value, b.value, |slotBlock|, |postingBlock|, total, capacity,
                             builder.symbolCount, |m|)), tt;
  }

  // ---- Committing the blocks ----------------------------------------------------------------------

  method CommitTable(db: DatabaseFile, built: TableBuilt, offset: nat, ghost sections: seq<Text>)
    returns (ok: bool, hdr: H.TableHeader, offset': nat)
    requires Laid(db.bytes, offset, sections)
    modifies db`bytes, db`signals, db`failures
    ensures Succeeded(ok, db.isOpen, old(db.failures), db.failures)
    ensures ok ==> Laid(db.bytes, offset', sections + [built.index, built.names])
    ensures ok && |Flatten(sections)| + |built.index| + |built.names| < U32 ==>
      var start := |Flatten(sections)|;
      hdr == H.TableHeader(H.Stored(start, |built.index|, built.indexLength),
                           H.Stored(start + |built.index|, |built.names|, built.namesLength),
                           |built.index| + |built.names|, built.count)
  {
    var index := H.Stored(offset, |built.index|, built.indexLength);
    hdr := H.TableHeader(index, index, 0, built.count);
    FlattenSnoc(sections, built.index);
    ok, offset' := Commit(db, built.index, offset, sections);
    if !ok {
      return;
    }
    var names := H.Stored(offset', |built.names|, built.namesLength);
    ok, offset' := Commit(db, built.names, offset', sections + [built.index]);
    assert sections + [built.index] + [built.names] == sections + [built.index, built.names];
    hdr := H.TableHeader(index, names, index.length + names.length, built.count);
  }

  method CommitSymbolIndex(db: DatabaseFile, built: SymbolBuilt, offset: nat, ghost sections: seq<Text>)
    returns (ok: bool, hdr: H.SymbolHeader, offset': nat)
    requires Laid(db.bytes, offset, sections)
    modifies db`bytes, db`signals, db`failures
    ensures Succeeded(ok, db.isOpen, old(db.failures), db.failures)
    ensures ok ==> Laid(db.bytes, offset', sections + [built.index, built.names, built.metadata])
    ensures ok && |Flatten(sections)| + |built.index| + |built.names| + |built.metadata| < U32 ==>
      var start := |Flatten(sections)|;
      hdr == H.SymbolHeader(H.Stored(start, |built.index|, built.indexLength),
                            H.Stored(start + |built.index|, |built.names|, built.namesLength),
                            H.Stored(start + |built.index| + |built.names|, |built.metadata|, built.metadataLength),
                            |built.index| + |built.names| + |built.metadata|, built.count)
  {
    var index := H.Stored(offset, |built.index|, built.indexLength);
    hdr := H.SymbolHeader(index, index, index, 0, built.count);
    FlattenSnoc(sections, built.index);
    ok, offset' := Commit(db, built.index, offset, sections);
    if !ok {
      return;
    }
    var names := H.Stored(offset', |built.names|, built.namesLength);
    FlattenSnoc(sections + [built.index], built.names);
    ok, offset' := Commit(db, built.names, offset', sections + [built.index]);
    if !ok {
      return;
    }
    var metadata := H.Stored(offset', |built.metadata|, built.metadataLength);
    ok, offset' := Commit(db, built.metadata, offset', sections + [built.index] + [built.names]);
    assert sections + [built.index] + [built.names] + [built.metadata]
        == sections + [built.index, built.names, built.metadata];
    hdr := H.SymbolHeader(index, names, metadata, index.length + names.length + metadata.length, built.count);
  }

  method CommitTrigramIndex(db: DatabaseFile, built: TrigramBuilt, offset: nat, ghost sections: seq<Text>)
    returns (ok: bool, hdr: H.TrigramHeader, offset': nat)
    requires Laid(db.bytes, offset, sections)
    modifies db`bytes, db`signals, db`failures
    ensures Succeeded(ok, db.isOpen, old(db.failures), db.failures)
    ensures ok ==> Laid(db.bytes, offset', sections + [built.slots, built.postings])
    ensures ok && |Flatten(sections)| + |built.slots| + |built.postings| < U32 ==>
      var start := |Flatten(sections)|;
      hdr == H.TrigramHeader(H.Stored(start, |built.slots|, built.slotsLength), built.capacity,
                             H.Stored(start + |built.slots|, |built.postings|, built.postingsLength),
                             built.postingsCount, built.trigramsCount, built.symbolsCount)
  {
    var slots := H.Stored(offset, |built.slots|, built.slotsLength);
    hdr := H.TrigramHeader(slots, built.capacity, slots, 0, 0, 0);
    FlattenSnoc(sections, built.slots);
    ok, offset' := Commit(db, built.slots, offset, sections);
    if !ok {
      return;
    }
    var postings := H.Stored(offset', |built.postings|, built.postingsLength);
    ok, offset' := Commit(db, built.postings, offset', sections + [built.slots]);
    assert sections + [built.slots] + [built.postings] == sections + [built.slots, built.postings];
    hdr := H.TrigramHeader(slots, built.capacity, postings, built.postingsCount, built.trigramsCount,
                           built.symbolsCount);
  }

  ghost function Packed(ft: TableBuilt, pt: TableBuilt, si: SymbolBuilt, ti: TrigramBuilt): (r: seq<Text>)
    ensures |r| == BLOCKS
  {
    [ft.index, ft.names, pt.index, pt.names, si.index, si.names, si.metadata, ti.slots, ti.postings]
  }

  lemma PackedParts(ft: TableBuilt, pt: TableBuilt, si: SymbolBuilt, ti: TrigramBuilt, base: seq<Text>)
    ensures var packed := Packed(ft, pt, si, ti);
      base + [ft.index, ft.names] + [pt.index, pt.names] + [si.index, si.names, si.metadata] + [ti.slots, ti.postings]
      == base + packed
  {
  }

  /** The offsets of the nine blocks, spelled out. */
  lemma PackedOffsets(packed: seq<Text>, base: seq<Text>)
    requires |packed| == BLOCKS
    ensures |Flatten(base + packed)| == |Flatten(base)| + |Flatten(packed)| && |Flatten(packed)| == Offset(packed, 9)
    ensures Offset(packed, 0) == 0 && forall i | 0 <= i < 9 :: Offset(packed, i + 1) == Offset(packed, i) + |packed[i]|
  {
    FlattenAppend(base, packed);
    WholeLength(packed);
  }

  lemma WholeLength(rows: seq<Text>)
    ensures |Flatten(rows)| == Offset(rows, |rows|)
  {
    FlattenLength(rows, |rows|);
    TakeAll(rows);
  }

  ghost predicate PlainLengths(ft: TableBuilt, pt: TableBuilt, si: SymbolBuilt, ti: TrigramBuilt, plain: seq<Text>)
    requires |plain| == BLOCKS
  {
    && ft.indexLength == |plain[FILE_INDEX]| && ft.namesLength == |plain[FILE_NAMES]|
    && pt.indexLength == |plain[PATH_INDEX]| && pt.namesLength == |plain[PATH_NAMES]|
    && si.indexLength == |plain[SYMBOL_INDEX]| && si.namesLength == |plain[SYMBOL_NAMES]|
    && si.metadataLength == |plain[SYMBOL_METADATA]|
    && ti.slotsLength == |plain[TRIGRAM_SLOTS]| && ti.postingsLength == |plain[TRIGRAM_POSTINGS]|
  }

  /** The sequential commit phase: the blocks follow each other in a fixed order. */
  method CommitAll(db: DatabaseFile, ft: TableBuilt, pt: TableBuilt, si: SymbolBuilt, ti: TrigramBuilt, offset: nat,
                   ghost base: seq<Text>, ghost plain: seq<Text>, ghost tt: TrigramTable, ghost names: seq<Text>)
    returns (ok: bool, fh: H.TableHeader, ph: H.TableHeader, sh: H.SymbolHeader, th: H.TrigramHeader)
    requires Laid(db.bytes, offset, base) && |plain| == BLOCKS && PlainLengths(ft, pt, si, ti, plain)
    requires ti.capacity == |tt.slots| && ti.postingsCount == |tt.postings| && ti.trigramsCount == |tt.codes|
    requires ti.symbolsCount == NonEmptyCount(names)
    modifies db`bytes, db`signals, db`failures
    ensures Succeeded(ok, db.isOpen, old(db.failures), db.failures)
    ensures ok && |Flatten(base)| + |Flatten(Packed(ft, pt, si, ti))| < U32 ==>
      var start, packed := |Flatten(base)|, Packed(ft, pt, si, ti);
      && db.bytes == Flatten(base) + Flatten(packed)
      && fh == FileHeader(start, plain, packed, ft.count) && ph == PathHeader(start, plain, packed, pt.count)
      && sh == SymbolIndexHeader(start, plain, packed, si.count)
      && th == TrigramIndexHeader(start, plain, packed, tt, names)
  {
    hide Flatten;
    var at: nat := offset;
    ghost var packed, start := Packed(ft, pt, si, ti), |Flatten(base)|;
    PackedOffsets(packed, base);
    PackedParts(ft, pt, si, ti, base);
    FlattenAppend(base, packed);
    var s := H.Stored(0, 0, 0);
    ph, sh := H.TableHeader(s, s, 0, 0), H.SymbolHeader(s, s, s, 0, 0);
    th := H.TrigramHeader(s, 0, s, 0, 0, 0);
    ok, fh, at := CommitTable(db, ft, at, base);
    if !ok {
      return;
    }
    ghost var base2 := base + [ft.index, ft.names];
    FlattenPair(base, ft.index, ft.names);
    ok, ph, at := CommitTable(db, pt, at, base2);
    if !ok {
      return;
    }
    ghost var base4 := base2 + [pt.index, pt.names];
    FlattenPair(base2, pt.index, pt.names);
    ok, sh, at := CommitSymbolIndex(db, si, at, base4);
    if !ok {
      return;
    }
    ghost var base7 := base4 + [si.index, si.names, si.metadata];
    FlattenTriple(base4, si.index, si.names, si.metadata);
    ok, th, at := CommitTrigramIndex(db, ti, at, base7);
  }

  lemma FlattenPair(base: seq<Text>, a: Text, b: Text)
    ensures |Flatten(base + [a, b])| == |Flatten(base)| + |a| + |b|
  {
    assert base + [a, b] == base + [a] + [b];
    FlattenSnoc(base, a);
    FlattenSnoc(base + [a], b);
  }

  lemma FlattenTriple(base: seq<Text>, a: Text, b: Text, c: Text)
    ensures |Flatten(base + [a, b, c])| == |Flatten(base)| + |a| + |b| + |c|
  {
    assert base + [a, b, c] == base + [a, b] + [c];
    FlattenPair(base, a, b);
    FlattenSnoc(base + [a, b], c);
  }

  // ---- The whole store ----------------------------------------------------------------------------

  /** Header placeholder, configuration and, if there is one, the dictionary. */
  method WritePreamble(db: DatabaseFile, conf: Text, dict: Option<Text>, hdr: H.Header)
    returns (ok: bool, hdr': H.Header, offset: nat)
    requires db.bytes == []
    modifies db`bytes, db`signals, db`failures
    ensures Succeeded(ok, db.isOpen, old(db.failures), db.failures)
    ensures ok ==> Laid(db.bytes, offset, [H.EncodeHeader(hdr), conf, if dict.Some? then dict.value else []])
    ensures ok && H.HEADER_SIZE + |conf| < U32 ==>
      hdr' == hdr.(confOffset := H.HEADER_SIZE, confLength := |conf|,
                   dictOffset := if dict.Some? then H.HEADER_SIZE + |conf| else hdr.dictOffset,
                   dictLength := if dict.Some? then |dict.value| else hdr.dictLength)
  {
    hdr' := hdr;
    var raw := H.EncodeHeader(hdr);
    assert [] + [raw] == [raw] && [raw] + [conf] == [raw, conf];
    FlattenSnoc([], raw);
    FlattenSnoc([raw], conf);
    ok, offset := Commit(db, raw, 0, []);
    if !ok {
      return;
    }
    hdr' := hdr'.(confOffset := offset, confLength := |conf|);
    ok, offset := Commit(db, conf, offset, [raw]);
    if !ok {
      return;
    }
    if dict.Some? {
      hdr' := hdr'.(dictOffset := offset, dictLength := |dict.value|);
      assert [raw, conf] + [dict.value] == [raw, conf, dict.value];
      ok, offset := Commit(db, dict.value, offset, [raw, conf]);
    } else {
      assert [raw, conf] + [[]] == [raw, conf, []];
      FlattenSnoc([raw, conf], []);
    }
  }

  lemma FlattenThree(a: Text, b: Text, c: Text)
    ensures Flatten([a, b, c]) == a + b + c
  {
    assert [a, b, c] == [a, b] + [c] && [a, b] == [a] + [b] && [a] == [] + [a];
    FlattenSnoc([], a);
    FlattenSnoc([a], b);
    FlattenSnoc([a, b], c);
  }

  const EMPTY_STORED := H.Stored(0, 0, 0)
  const EMPTY_TABLE_HEADER := H.TableHeader(EMPTY_STORED, EMPTY_STORED, 0, 0)

  /** The header before anything is known but the magic number and the version. */
  const BLANK_HEADER := H.Header(H.MAGIC, H.VERSION, 0, 0, 0, 0, EMPTY_TABLE_HEADER, EMPTY_TABLE_HEADER,
                                 H.SymbolHeader(EMPTY_STORED, EMPTY_STORED, EMPTY_STORED, 0, 0),
                                 H.TrigramHeader(EMPTY_STORED, 0, EMPTY_STORED, 0, 0, 0))

  /** The parallel build phase; its results do not depend on each other. */
  method BuildAll(c: Content, z: Codec)
    returns (ft: Option<TableBuilt>, pt: Option<TableBuilt>, si: Option<SymbolBuilt>, ti: Option<TrigramBuilt>,
             ghost tt: TrigramTable)
    requires Valid(c.table)
    ensures TrigramsFor(tt, c.table.keys)
    ensures ft.Some? ==>
      BuiltTable(ft.value, z, DictBytes(c), Flatten(FileRows(c.files)), Flatten(FileNames(c.files)), |c.files|)
    ensures pt.Some? ==> BuiltTable(pt.value, z, DictBytes(c), Flatten(PathRows(c.paths)), Flatten(c.paths), |c.paths|)
    ensures si.Some? ==> BuiltSymbols(si.value, z, DictBytes(c), c.table)
    ensures ti.Some? ==> BuiltTrigrams(ti.value, z, tt, c.table.keys)
    ensures ft.None? || pt.None? || si.None? || ti.None? ==> !Compresses(z, DictBytes(c), Plain(c, tt))
  {
    hide TrigramsFor, Compresses, Compress, Flatten;
    hide FileRows, PathRows, SymbolRows, MetadataRows, SlotRows, PostingRows;
    ft := BuildFileTable(c.files, z, DictBytes(c));
    pt := BuildPathTable(c.paths, z, DictBytes(c));
    si := BuildSymbolIndex(c.table, z, DictBytes(c));
    ti, tt := BuildTrigramIndex(c.table.keys, z);
    EachBlockCompresses(z, DictBytes(c), Plain(c, tt));
  }

  lemma EachBlockCompresses(z: Codec, dict: Text, plain: seq<Text>)
    requires |plain| == 9
    ensures Compresses(z, dict, plain) ==>
      && Compress(z, [], plain[0]).Some? && Compress(z, dict, plain[1]).Some?
      && Compress(z, [], plain[2]).Some? && Compress(z, dict, plain[3]).Some?
      && Compress(z, [], plain[4]).Some? && Compress(z, dict, plain[5]).Some?
      && Compress(z, [], plain[6]).Some? && Compress(z, [], plain[7]).Some? && Compress(z, [], plain[8]).Some?
  {
    hide Compress;
    if Compresses(z, dict, plain) {
      forall i | 0 <= i < 9 ensures Compress(z, DictFor(dict, i), plain[i]).Some? {}
      assert DictFor(dict, 0) == [] && DictFor(dict, 1) == dict && DictFor(dict, 2) == [] && DictFor(dict, 3) == dict;
      assert DictFor(dict, 4) == [] && DictFor(dict, 5) == dict && DictFor(dict, 6) == [] && DictFor(dict, 7) == [];
    }
  }

  lemma CompressedMeansCompresses(z: Codec, dict: Text, plain: seq<Text>, packed: seq<Text>)
    requires CompressedAs(z, dict, plain, packed)
    ensures Compresses(z, dict, plain)
  {
  }

  lemma AllBuilt(c: Content, z: Codec, ft: TableBuilt, pt: TableBuilt, si: SymbolBuilt, ti: TrigramBuilt,
                 tt: TrigramTable)
    requires Valid(c.table)
    requires BuiltTable(ft, z, DictBytes(c), Flatten(FileRows(c.files)), Flatten(FileNames(c.files)), |c.files|)
    requires BuiltTable(pt, z, DictBytes(c), Flatten(PathRows(c.paths)), Flatten(c.paths), |c.paths|)
    requires BuiltSymbols(si, z, DictBytes(c), c.table) && BuiltTrigrams(ti, z, tt, c.table.keys)
    ensures CompressedAs(z, DictBytes(c), Plain(c, tt), Packed(ft, pt, si, ti))
    ensures PlainLengths(ft, pt, si, ti, Plain(c, tt))
  {
    hide Flatten, Compress;
    NineCompressed(z, DictBytes(c), Plain(c, tt), Packed(ft, pt, si, ti));
  }

  lemma NineCompressed(z: Codec, dict: Text, plain: seq<Text>, packed: seq<Text>)
    requires |plain| == |packed| == 9
    requires Compress(z, [], plain[0]) == Some(packed[0]) && Compress(z, dict, plain[1]) == Some(packed[1])
    requires Compress(z, [], plain[2]) == Some(packed[2]) && Compress(z, dict, plain[3]) == Some(packed[3])
    requires Compress(z, [], plain[4]) == Some(packed[4]) && Compress(z, dict, plain[5]) == Some(packed[5])
    requires Compress(z, [], plain[6]) == Some(packed[6]) && Compress(z, [], plain[7]) == Some(packed[7])
    requires Compress(z, [], plain[8]) == Some(packed[8])
    ensures CompressedAs(z, dict, plain, packed)
  {
  }

  /** Rewriting the header at offset zero changes no section behind it. */
  lemma FinalRewrite(raw: Text, raw': Text, conf: Text, dict: Text, blocks: Text)
    requires |raw| == |raw'|
    ensures WriteAt(Flatten([raw, conf, dict]) + blocks, 0, raw') == raw' + conf + dict + blocks
  {
    hide Flatten, WriteAt;
    FlattenThree(raw, conf, dict);
    assert raw + conf + dict + blocks == raw + (conf + dict + blocks);
    OverwriteHead(raw, raw', conf + dict + blocks);
  }

  /** Writes a database.  tt is the trigram table of the names, packed are the compressed blocks.  It
      succeeds exactly when the file is open, no system call fails and every block can be compressed.  When
      it reports success and the format's limits hold, the file is exactly the image of the content,
      however the operating system split the writes. */
  method StoreDb(db: DatabaseFile, c: Content, z: Codec)
    returns (ok: bool, ghost tt: TrigramTable, ghost packed: seq<Text>)
    requires Valid(c.table) && db.bytes == []
    modifies db`bytes, db`signals, db`failures
    ensures db.isOpen && db.failures == old(db.failures) ==> TrigramsFor(tt, c.table.keys)
    ensures ok <==> db.isOpen && db.failures == old(db.failures) && Compresses(z, DictBytes(c), Plain(c, tt))
    ensures ok ==> CompressedAs(z, DictBytes(c), Plain(c, tt), packed)
    ensures ok && FormatFits(c, tt, packed) ==> ImageOf(db.bytes, c, z, tt, packed)
  {
    hide Plain, Compresses, CompressedAs, TrigramsFor;
    packed, tt := [], TrigramTable([], [], map[], 0);
    if !db.isOpen {
      return false, tt, packed;
    }
    var hdr, offset;
    ok, hdr, offset := WritePreamble(db, c.conf, c.dict, BLANK_HEADER);
    if !ok {
      return;
    }
    var ft, pt, si, ti;
    ft, pt, si, ti, tt := BuildAll(c, z);
    if !(ft.Some? && pt.Some? && si.Some? && ti.Some?) {
      return false, tt, packed;
    }
    packed := Packed(ft.value, pt.value, si.value, ti.value);
    AllBuilt(c, z, ft.value, pt.value, si.value, ti.value, tt);
    CompressedMeansCompresses(z, DictBytes(c), Plain(c, tt), packed);
    ok := CommitPhase(db, c, ft.value, pt.value, si.value, ti.value, hdr, offset, tt);
  }

  /** The blocks, and then the header once more, now complete. */
  method CommitPhase(db: DatabaseFile, c: Content, ft: TableBuilt, pt: TableBuilt, si: SymbolBuilt, ti: TrigramBuilt,
                     hdr0: H.Header, offset: nat, ghost tt: TrigramTable)
    returns (ok: bool)
    requires Valid(c.table) && Laid(db.bytes, offset, [H.EncodeHeader(BLANK_HEADER), c.conf, DictBytes(c)])
    requires PlainLengths(ft, pt, si, ti, Plain(c, tt))
    requires ft.count == |c.files| && pt.count == |c.paths| && si.count == |c.table.keys|
    requires ti.capacity == |tt.slots| && ti.postingsCount == |tt.postings| && ti.trigramsCount == |tt.codes|
    requires ti.symbolsCount == NonEmptyCount(c.table.keys)
    requires H.HEADER_SIZE + |c.conf| < U32 ==> PreambleDone(hdr0, c)
    modifies db`bytes, db`signals, db`failures
    ensures Succeeded(ok, db.isOpen, old(db.failures), db.failures)
    ensures var packed := Packed(ft, pt, si, ti);
      ok && BlocksStart(c) + |Flatten(packed)| < U32 ==>
        db.bytes == H.EncodeHeader(HeaderFor(c, tt, packed)) + c.conf + DictBytes(c) + Flatten(packed)
  {
    hide Flatten, WriteAt, Plain, H.EncodeHeader;
    ghost var raw := H.EncodeHeader(BLANK_HEADER);
    ghost var base := [raw, c.conf, DictBytes(c)];
    ghost var packed := Packed(ft, pt, si, ti);
    FlattenThree(raw, c.conf, DictBytes(c));
    var fh, ph, sh, th;
    ok, fh, ph, sh, th := CommitAll(db, ft, pt, si, ti, offset, base, Plain(c, tt), tt, c.table.keys);
    if !ok {
      return;
    }
    var hdr := hdr0.(files := fh, paths := ph, symbols := sh, trigrams := th);
    FinalRewrite(raw, H.EncodeHeader(hdr), c.conf, DictBytes(c), Flatten(packed));
    if BlocksStart(c) + |Flatten(packed)| < U32 {
      CompleteHeader(hdr, c, tt, packed);
    }
    var end;
    ok, end := WriteDatabaseBuffer(db, H.EncodeHeader(hdr), 0);
  }

  lemma CompleteHeader(hdr: H.Header, c: Content, tt: TrigramTable, packed: seq<Text>)
    requires Valid(c.table) && |packed| == BLOCKS && PreambleDone(hdr, c)
    requires var start, plain := BlocksStart(c), Plain(c, tt);
      && hdr.files == FileHeader(start, plain, packed, |c.files|)
      && hdr.paths == PathHeader(start, plain, packed, |c.paths|)
      && hdr.symbols == SymbolIndexHeader(start, plain, packed, |c.table.keys|)
      && hdr.trigrams == TrigramIndexHeader(start, plain, packed, tt, c.table.keys)
    ensures hdr == HeaderFor(c, tt, packed)
  {
  }

  ghost predicate PreambleDone(hdr: H.Header, c: Content) {
    && hdr.magic == H.MAGIC && hdr.version == H.VERSION
    && hdr.confOffset == H.HEADER_SIZE && hdr.confLength == |c.conf|
    && hdr.dictOffset == (if c.dict.Some? then H.HEADER_SIZE + |c.conf| else 0) && hdr.dictLength == |DictBytes(c)|
  }
}
