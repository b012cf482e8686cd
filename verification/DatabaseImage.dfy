/** A finished database file seen by a reader: header and blocks read back exactly as they were stored. */
module DatabaseImage {
  import opened Bytes
  import opened Packing
  import opened SymbolTables
  import opened Trigrams
  import opened OpenAddressing
  import opened TrigramIndex
  import opened DatabaseFormat
  import opened DatabaseStore
  import H = DatabaseHeader

  // ---- Blocks of a file -------------------------------------------------------------------------

  predicate Within(s: H.Stored, bytes: Text) {
    s.offset + s.length <= |bytes|
  }

  /** The bytes of a stored block. */
  function Slice(bytes: Text, s: H.Stored): Text
    requires Within(s, bytes)
  {
    bytes[s.offset..s.offset + s.length]
  }

  /** The nine blocks in file order. */
  function StoredBlocks(h: H.Header): (r: seq<H.Stored>)
    ensures |r| == BLOCKS
  {
    [h.files.index, h.files.names, h.paths.index, h.paths.names,
     h.symbols.index, h.symbols.names, h.symbols.metadata, h.trigrams.index, h.trigrams.postings]
  }

  predicate Recognised(h: H.Header) {
    h.magic == H.MAGIC && h.version == H.VERSION
  }

  function HeaderOf(bytes: Text): H.Header
    requires |bytes| >= H.HEADER_SIZE
  {
    H.DecodeHeader(bytes[..H.HEADER_SIZE])
  }

  /** The reader checks no bounds, so it may only be given files whose header stays inside the file. */
  ghost predicate Readable(bytes: Text) {
    && |bytes| >= H.HEADER_SIZE
    && var h := HeaderOf(bytes);
    Recognised(h) ==>
      && h.dictOffset + h.dictLength <= |bytes|
      && forall i | 0 <= i < BLOCKS :: Within(StoredBlocks(h)[i], bytes)
  }

  function DictOf(bytes: Text, h: H.Header): Text
    requires h.dictOffset + h.dictLength <= |bytes|
  {
    bytes[h.dictOffset..h.dictOffset + h.dictLength]
  }

  /** What decompressing block i yields. */
  function Unpacked(bytes: Text, z: Codec, i: nat): Option<Text>
    requires |bytes| >= H.HEADER_SIZE && i < BLOCKS
    requires var h := HeaderOf(bytes); h.dictOffset + h.dictLength <= |bytes| && Within(StoredBlocks(h)[i], bytes)
  {
    var h := HeaderOf(bytes);
    var s := StoredBlocks(h)[i];
    z.decompress(DictFor(DictOf(bytes, h), i), Slice(bytes, s), s.uncompressed)
  }

  // ---- An image read back -------------------------------------------------------------------------

  lemma ImageHeader(bytes: Text, c: Content, z: Codec, tt: TrigramTable, packed: seq<Text>)
    requires ImageOf(bytes, c, z, tt, packed) && H.HeaderFits(HeaderFor(c, tt, packed))
    ensures |bytes| >= H.HEADER_SIZE && HeaderOf(bytes) == HeaderFor(c, tt, packed)
  {
    var hdr := HeaderFor(c, tt, packed);
    var raw := H.EncodeHeader(hdr);
    H.HeaderRoundTrip(hdr);
    PrefixOf(raw, c.conf, DictBytes(c), Flatten(packed));
  }

  lemma PrefixOf(a: Text, b: Text, c: Text, d: Text)
    ensures |a + b + c + d| == |a| + |b| + |c| + |d| && (a + b + c + d)[..|a|] == a
    ensures (a + b + c + d)[|a| + |b|..|a| + |b| + |c|] == c
    ensures (a + b + c + d)[|a| + |b| + |c|..] == d
  {
  }

  lemma SliceBehind(all: Text, start: nat, rows: seq<Text>, i: nat)
    requires start <= |all| && all[start..] == Flatten(rows) && i < |rows|
    ensures var o := start + Offset(rows, i); o + |rows[i]| <= |all| && all[o..o + |rows[i]|] == rows[i]
  {
    hide Flatten, Offset;
    FlattenAt(rows, i);
    var o := Offset(rows, i);
    assert all[start..][o..o + |rows[i]|] == all[start + o..start + o + |rows[i]|];
  }

  lemma TableIsSmall(tt: TrigramTable, names: seq<Text>)
    requires TrigramsFor(tt, names)
    ensures |tt.codes| < |tt.slots| <= 0x200_0000 && |tt.postings| == PostingCount(names)
  {
    hide Pow2, TableFor, Collected, LeastCapacity, PostingCount;
    Pow2Monotone(tt.bits, 25);
    Pow2Values();
  }

  lemma RowsFit(c: Content, tt: TrigramTable)
    requires Valid(c.table) && TrigramsFor(tt, c.table.keys)
    requires FilesFit(c.files) && PathsFit(c.paths) && SymbolsFit(c.table) && 4 * |tt.postings| < U32
    ensures |Flatten(FileRows(c.files))| < U32 && |Flatten(PathRows(c.paths))| < U32
    ensures |Flatten(SymbolRows(c.table))| < U32
    ensures |Flatten(SlotRows(tt.slots))| < U32 && |Flatten(PostingRows(tt.postings))| < U32
  {
    hide Flatten, FileRow, PathRow, SymbolRow, SlotBytes, FileRows, PathRows, SymbolRows, SlotRows, PostingRows;
    hide TrigramsFor;
    WideLength(FileRows(c.files), FILE_SIZE);
    WideLength(PathRows(c.paths), PATH_SIZE);
    WideLength(SymbolRows(c.table), SYMBOL_SIZE);
    WideLength(SlotRows(tt.slots), SLOT_SIZE);
    WideLength(PostingRows(tt.postings), 4);
    TableIsSmall(tt, c.table.keys);
  }

  lemma NineFit(a: Text, b: Text, c: Text, d: Text, e: Text, f: Text, g: Text, h: Text, i: Text)
    requires |a| < U32 && |b| < U32 && |c| < U32 && |d| < U32 && |e| < U32
    requires |f| < U32 && |g| < U32 && |h| < U32 && |i| < U32
    ensures forall k | 0 <= k < 9 :: |[a, b, c, d, e, f, g, h, i][k]| < U32
  {
  }

  lemma PlainFits(c: Content, tt: TrigramTable, packed: seq<Text>)
    requires Valid(c.table) && TrigramsFor(tt, c.table.keys) && FormatFits(c, tt, packed)
    ensures forall i | 0 <= i < BLOCKS :: |Plain(c, tt)[i]| < U32
  {
    RowsFit(c, tt);
    NineFit(Flatten(FileRows(c.files)), Flatten(FileNames(c.files)), Flatten(PathRows(c.paths)), Flatten(c.paths),
            Flatten(SymbolRows(c.table)), Flatten(c.table.keys), Flatten(MetadataRows(c.table)),
            Flatten(SlotRows(tt.slots)), Flatten(PostingRows(tt.postings)));
  }

  /** Compressing and storing a block, then cutting it out and decompressing it, gives the block back. */
  lemma BlockBack(all: Text, start: nat, z: Codec, dict: Text, plain: seq<Text>, packed: seq<Text>, i: nat)
    requires CompressedAs(z, dict, plain, packed) && Lossless(z)
    requires start <= |all| && all[start..] == Flatten(packed) && i < |packed| && |plain[i]| < U32
    ensures var s := StoredFrom(start, plain, packed, i);
      Within(s, all) && z.decompress(DictFor(dict, i), Slice(all, s), s.uncompressed) == Some(plain[i])
  {
    hide Flatten, Offset;
    SliceBehind(all, start, packed, i);
    TakeAll(plain[i]);
    assert Compress(z, DictFor(dict, i), plain[i]) == z.compress(DictFor(dict, i), plain[i]);
  }

  /** Decompressing block i of an image yields the i-th plain block. */
  lemma ImageBlock(bytes: Text, c: Content, z: Codec, tt: TrigramTable, packed: seq<Text>, i: nat)
    requires ImageOf(bytes, c, z, tt, packed) && H.HeaderFits(HeaderFor(c, tt, packed))
    requires FormatFits(c, tt, packed) && Lossless(z) && i < BLOCKS
    ensures |bytes| >= H.HEADER_SIZE && var h := HeaderOf(bytes);
      && h.dictOffset + h.dictLength <= |bytes| && Within(StoredBlocks(h)[i], bytes)
      && Unpacked(bytes, z, i) == Some(Plain(c, tt)[i])
  {
    ImageHeader(bytes, c, z, tt, packed);
    ImageDict(bytes, c, z, tt, packed);
    StoredIsExpected(c, tt, packed, i);
    PlainFits(c, tt, packed);
    BlockBack(bytes, BlocksStart(c), z, DictBytes(c), Plain(c, tt), packed, i);
  }

  lemma ImageDict(bytes: Text, c: Content, z: Codec, tt: TrigramTable, packed: seq<Text>)
    requires ImageOf(bytes, c, z, tt, packed)
    ensures var h := HeaderFor(c, tt, packed);
      && h.dictOffset + h.dictLength <= |bytes| && DictOf(bytes, h) == DictBytes(c)
      && BlocksStart(c) <= |bytes| && bytes[BlocksStart(c)..] == Flatten(packed)
  {
    PrefixOf(H.EncodeHeader(HeaderFor(c, tt, packed)), c.conf, DictBytes(c), Flatten(packed));
  }

  lemma StoredIsExpected(c: Content, tt: TrigramTable, packed: seq<Text>, i: nat)
    requires Valid(c.table) && |packed| == BLOCKS && i < BLOCKS
    ensures StoredBlocks(HeaderFor(c, tt, packed))[i] == StoredFrom(BlocksStart(c), Plain(c, tt), packed, i)
  {
    StoredInOrder(HeaderFor(c, tt, packed), BlocksStart(c), Plain(c, tt), packed, tt, c, i);
  }

  lemma StoredInOrder(h: H.Header, start: nat, plain: seq<Text>, packed: seq<Text>, tt: TrigramTable, c: Content,
                      i: nat)
    requires |plain| == |packed| == BLOCKS && i < BLOCKS
    requires h.files == FileHeader(start, plain, packed, |c.files|)
    requires h.paths == PathHeader(start, plain, packed, |c.paths|)
    requires h.symbols == SymbolIndexHeader(start, plain, packed, |c.table.keys|)
    requires h.trigrams == TrigramIndexHeader(start, plain, packed, tt, c.table.keys)
    ensures StoredBlocks(h)[i] == StoredFrom(start, plain, packed, i)
  {
  }

  // ---- The header fields fit --------------------------------------------------------------------

  lemma StoredFromFits(start: nat, plain: seq<Text>, packed: seq<Text>, i: nat)
    requires i < |packed| == |plain| && start + |Flatten(packed)| < U32 && |plain[i]| < U32
    ensures H.StoredFits(StoredFrom(start, plain, packed, i))
  {
    FlattenAt(packed, i);
  }

  lemma TableHeadersFit(start: nat, plain: seq<Text>, packed: seq<Text>, files: nat, paths: nat)
    requires |packed| == |plain| == BLOCKS && start + |Flatten(packed)| < U32
    requires forall i | 0 <= i < BLOCKS :: |plain[i]| < U32
    requires files < U32 && paths < U32
    ensures FieldsFit(H.TABLE, H.TableHeaderFields(FileHeader(start, plain, packed, files)))
    ensures FieldsFit(H.TABLE, H.TableHeaderFields(PathHeader(start, plain, packed, paths)))
  {
    PackedOffsets(packed, []);
    forall i | 0 <= i < BLOCKS ensures H.StoredFits(StoredFrom(start, plain, packed, i)) {
      StoredFromFits(start, plain, packed, i);
    }
    H.TableHeaderFits(FileHeader(start, plain, packed, files));
    H.TableHeaderFits(PathHeader(start, plain, packed, paths));
  }

  lemma IndexHeadersFit(start: nat, plain: seq<Text>, packed: seq<Text>, tt: TrigramTable, names: seq<Text>)
    requires |packed| == |plain| == BLOCKS && start + |Flatten(packed)| < U32
    requires forall i | 0 <= i < BLOCKS :: |plain[i]| < U32
    requires |names| < U32 && |tt.slots| < U32 && |tt.postings| < U32 && |tt.codes| < U32
    ensures FieldsFit(H.SYMBOLS, H.SymbolHeaderFields(SymbolIndexHeader(start, plain, packed, |names|)))
    ensures FieldsFit(H.TRIGRAMS, H.TrigramHeaderFields(TrigramIndexHeader(start, plain, packed, tt, names)))
  {
    PackedOffsets(packed, []);
    forall i | 0 <= i < BLOCKS ensures H.StoredFits(StoredFrom(start, plain, packed, i)) {
      StoredFromFits(start, plain, packed, i);
    }
    H.SymbolHeaderFits(SymbolIndexHeader(start, plain, packed, |names|));
    H.TrigramHeaderFits(TrigramIndexHeader(start, plain, packed, tt, names));
  }

  /** Within the format's limits no header field loses a byte. */
  lemma ImageHeaderFits(c: Content, tt: TrigramTable, packed: seq<Text>)
    requires Valid(c.table) && TrigramsFor(tt, c.table.keys) && |packed| == BLOCKS && FormatFits(c, tt, packed)
    ensures H.HeaderFits(HeaderFor(c, tt, packed))
  {
    hide TrigramsFor, Plain;
    TableIsSmall(tt, c.table.keys);
    PlainFits(c, tt, packed);
    TableHeadersFit(BlocksStart(c), Plain(c, tt), packed, |c.files|, |c.paths|);
    IndexHeadersFit(BlocksStart(c), Plain(c, tt), packed, tt, c.table.keys);
    H.PartsFit(HeaderFor(c, tt, packed));
  }

  /** Reading back what was stored: the header is recognised, and every block comes out as it went in. */
  lemma ImageReadsBack(bytes: Text, c: Content, z: Codec, tt: TrigramTable, packed: seq<Text>)
    requires ImageOf(bytes, c, z, tt, packed) && FormatFits(c, tt, packed) && Lossless(z)
    ensures Readable(bytes) && Recognised(HeaderOf(bytes)) && HeaderOf(bytes) == HeaderFor(c, tt, packed)
    ensures forall i | 0 <= i < BLOCKS :: Unpacked(bytes, z, i) == Some(Plain(c, tt)[i])
  {
    ImageHeaderFits(c, tt, packed);
    ImageHeader(bytes, c, z, tt, packed);
    ImageDict(bytes, c, z, tt, packed);
    forall i | 0 <= i < BLOCKS
      ensures Within(StoredBlocks(HeaderOf(bytes))[i], bytes) && Unpacked(bytes, z, i) == Some(Plain(c, tt)[i])
    {
      ImageBlock(bytes, c, z, tt, packed, i);
    }
  }
}
