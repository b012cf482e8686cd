/** The on-disk blocks: what content they stand for, and that reading a record gives back what was put in.
    Fields are written with their width, so a number too large for its field loses its high bytes. */
module DatabaseFormat {
  import opened Bytes
  import opened Packing
  import opened SymbolTables
  import opened OpenAddressing

  datatype FileInfo = FileInfo(name: Text, pathId: nat)

  // ---- File table -------------------------------------------------------------------------------

  /** path_id, name_offset, name_length */
  const FILE_WIDTHS: seq<nat> := [4, 4, 4]
  const FILE_SIZE := 12

  function FileNames(files: seq<FileInfo>): (r: seq<Text>)
    ensures |r| == |files| && forall i | 0 <= i < |files| :: r[i] == files[i].name
  {
    seq(|files|, i requires 0 <= i < |files| => files[i].name)
  }

  function FileRow(files: seq<FileInfo>, i: nat): (r: Text)
    requires i < |files|
    ensures |r| == FILE_SIZE
  {
    Pack(FILE_WIDTHS, [files[i].pathId, Offset(FileNames(files), i), |files[i].name|])
  }

  function FileRows(files: seq<FileInfo>): (r: seq<Text>)
    ensures |r| == |files| && forall i | 0 <= i < |files| :: r[i] == FileRow(files, i)
  {
    seq(|files|, i requires 0 <= i < |files| => FileRow(files, i))
  }

  // ---- Path table -------------------------------------------------------------------------------

  /** name_offset, name_length */
  const PATH_WIDTHS: seq<nat> := [4, 4]
  const PATH_SIZE := 8

  function PathRow(paths: seq<Text>, i: nat): (r: Text)
    requires i < |paths|
    ensures |r| == PATH_SIZE
  {
    Pack(PATH_WIDTHS, [Offset(paths, i), |paths[i]|])
  }

  function PathRows(paths: seq<Text>): (r: seq<Text>)
    ensures |r| == |paths| && forall i | 0 <= i < |paths| :: r[i] == PathRow(paths, i)
  {
    seq(|paths|, i requires 0 <= i < |paths| => PathRow(paths, i))
  }

  // ---- Symbol index -----------------------------------------------------------------------------

  /** file_id, is_defined, source_section, type, bind, visibility, offset */
  const REF_WIDTHS: seq<nat> := [4, 1, 1, 1, 1, 1, 4]
  const REF_SIZE := 13

  function RefBytes(r: Ref): (b: Text)
    ensures |b| == REF_SIZE
  {
    var m := r.meta;
    Pack(REF_WIDTHS,
         [r.fileId, if m.isDefined then 1 else 0, m.sourceSection, m.symbolType, m.bind, m.visibility, m.offset])
  }

  function RefRows(refs: seq<Ref>): (r: seq<Text>)
    ensures |r| == |refs| && forall i | 0 <= i < |refs| :: r[i] == RefBytes(refs[i])
  {
    seq(|refs|, i requires 0 <= i < |refs| => RefBytes(refs[i]))
  }

  function MetadataRows(t: Table): (r: seq<Text>)
    requires Valid(t)
    ensures |r| == |t.keys| && forall i | 0 <= i < |t.keys| :: r[i] == Flatten(RefRows(t.refs[t.keys[i]]))
  {
    seq(|t.keys|, i requires 0 <= i < |t.keys| => Flatten(RefRows(t.refs[t.keys[i]])))
  }

  /** name_offset, name_length, metadata_offset, metadata_length */
  const SYMBOL_WIDTHS: seq<nat> := [4, 4, 4, 4]
  const SYMBOL_SIZE := 16

  function SymbolRow(t: Table, i: nat): (r: Text)
    requires Valid(t) && i < |t.keys|
    ensures |r| == SYMBOL_SIZE
  {
    Pack(SYMBOL_WIDTHS, SymbolFields(t.keys, MetadataRows(t), i))
  }

  function SymbolRows(t: Table): (r: seq<Text>)
    requires Valid(t)
    ensures |r| == |t.keys| && forall i | 0 <= i < |t.keys| :: r[i] == SymbolRow(t, i)
  {
    seq(|t.keys|, i requires 0 <= i < |t.keys| => SymbolRow(t, i))
  }

  // ---- Trigram index ----------------------------------------------------------------------------

  /** trigram_code, posting_offset, posting_count */
  const SLOT_WIDTHS: seq<nat> := [4, 4, 4]
  const SLOT_SIZE := 12

  function SlotBytes(s: Slot): (b: Text)
    ensures |b| == SLOT_SIZE
  {
    Pack(SLOT_WIDTHS, [s.code, s.postingOffset, s.postingCount])
  }

  function SlotRows(slots: seq<Slot>): (r: seq<Text>)
    ensures |r| == |slots| && forall i | 0 <= i < |slots| :: r[i] == SlotBytes(slots[i])
  {
    seq(|slots|, i requires 0 <= i < |slots| => SlotBytes(slots[i]))
  }

  function PostingRows(postings: seq<nat>): (r: seq<Text>)
    ensures |r| == |postings| && forall i | 0 <= i < |postings| :: r[i] == LE(4, postings[i])
  {
    seq(|postings|, i requires 0 <= i < |postings| => LE(4, postings[i]))
  }

  lemma RecordSizes()
    ensures Sum(FILE_WIDTHS) == FILE_SIZE && Sum(PATH_WIDTHS) == PATH_SIZE && Sum(SYMBOL_WIDTHS) == SYMBOL_SIZE
    ensures Sum(REF_WIDTHS) == REF_SIZE && Sum(SLOT_WIDTHS) == SLOT_SIZE
  {
  }

  // ---- Reading records --------------------------------------------------------------------------

  /** Record i of a block of equally wide records. */
  function Record(buf: Text, ws: seq<nat>, w: nat, i: nat): (vs: seq<nat>)
    requires w == Sum(ws) && i * w + w <= |buf|
    ensures |vs| == |ws|
  {
    Unpack(ws, buf[i * w..i * w + w])
  }

  lemma RecordOfRows(rows: seq<Text>, ws: seq<nat>, w: nat, i: nat, vs: seq<nat>)
    requires AllWide(rows, w) && w == Sum(ws) && i < |rows| && FieldsFit(ws, vs) && rows[i] == Pack(ws, vs)
    ensures i * w + w <= |Flatten(rows)| && Record(Flatten(rows), ws, w, i) == vs
  {
    WideAt(rows, w, i);
    UnpackOfPack(ws, vs);
  }

  /** Every blob position and length fits the 32-bit fields of the records. */
  ghost predicate FilesFit(files: seq<FileInfo>) {
    && |Flatten(FileNames(files))| < U32 && FILE_SIZE * |files| < U32
    && forall i | 0 <= i < |files| :: files[i].pathId < U32
  }

  ghost predicate PathsFit(paths: seq<Text>) {
    |Flatten(paths)| < U32 && PATH_SIZE * |paths| < U32
  }

  ghost predicate RefFits(r: Ref) {
    r.fileId < U32 && r.meta.offset < U32
  }

  ghost predicate RefsFit(refs: seq<Ref>) {
    forall i | 0 <= i < |refs| :: RefFits(refs[i])
  }

  ghost predicate SymbolsFit(t: Table)
    requires Valid(t)
  {
    && |Flatten(t.keys)| < U32 && |Flatten(MetadataRows(t))| < U32 && SYMBOL_SIZE * |t.keys| < U32
    && forall n :: n in t.refs ==> RefsFit(t.refs[n])
  }

  lemma RefsOfKeyFit(t: Table, id: nat)
    requires Valid(t) && SymbolsFit(t) && id < |t.keys|
    ensures RefsFit(t.refs[t.keys[id]])
  {
    assert t.keys[id] in t.refs;
  }

  /** A file record names the slice of the name blob that holds the file's name. */
  lemma FileRoundTrip(files: seq<FileInfo>, i: nat)
    requires FilesFit(files) && i < |files|
    ensures var buf, names := Flatten(FileRows(files)), Flatten(FileNames(files));
      && |buf| == FILE_SIZE * |files| && i * FILE_SIZE + FILE_SIZE <= |buf|
      && var vs := Record(buf, FILE_WIDTHS, FILE_SIZE, i);
      && vs[0] == files[i].pathId
      && vs[1] + vs[2] <= |names| && names[vs[1]..vs[1] + vs[2]] == files[i].name
  {
    Widths();
    FlattenAt(FileNames(files), i);
    WideLength(FileRows(files), FILE_SIZE);
    RecordOfRows(FileRows(files), FILE_WIDTHS, FILE_SIZE, i,
                 [files[i].pathId, Offset(FileNames(files), i), |files[i].name|]);
  }

  lemma PathRoundTrip(paths: seq<Text>, i: nat)
    requires PathsFit(paths) && i < |paths|
    ensures var buf, names := Flatten(PathRows(paths)), Flatten(paths);
      && |buf| == PATH_SIZE * |paths| && i * PATH_SIZE + PATH_SIZE <= |buf|
      && var vs := Record(buf, PATH_WIDTHS, PATH_SIZE, i);
      vs[0] + vs[1] <= |names| && names[vs[0]..vs[0] + vs[1]] == paths[i]
  {
    Widths();
    FlattenAt(paths, i);
    WideLength(PathRows(paths), PATH_SIZE);
    RecordOfRows(PathRows(paths), PATH_WIDTHS, PATH_SIZE, i, [Offset(paths, i), |paths[i]|]);
  }

  function SymbolFields(names: seq<Text>, metas: seq<Text>, i: nat): seq<nat>
    requires i < |names| == |metas|
  {
    [Offset(names, i), |names[i]|, Offset(metas, i), |metas[i]|]
  }

  lemma SymbolFieldsFit(names: seq<Text>, metas: seq<Text>, i: nat)
    requires i < |names| == |metas| && |Flatten(names)| < U32 && |Flatten(metas)| < U32
    ensures FieldsFit(SYMBOL_WIDTHS, SymbolFields(names, metas, i))
  {
    Widths();
    FlattenAt(names, i);
    FlattenAt(metas, i);
  }

  lemma SymbolFieldsSlice(names: seq<Text>, metas: seq<Text>, i: nat, vs: seq<nat>)
    requires i < |names| == |metas| && vs == SymbolFields(names, metas, i)
    ensures vs[0] + vs[1] <= |Flatten(names)| && Flatten(names)[vs[0]..vs[0] + vs[1]] == names[i]
    ensures vs[2] + vs[3] <= |Flatten(metas)| && Flatten(metas)[vs[2]..vs[2] + vs[3]] == metas[i]
  {
    FlattenAt(names, i);
    FlattenAt(metas, i);
  }

  /** A symbol record names the slices that hold the symbol's name and its reference list. */
  lemma SymbolRoundTrip(t: Table, i: nat)
    requires Valid(t) && SymbolsFit(t) && i < |t.keys|
    ensures var buf, names, meta := Flatten(SymbolRows(t)), Flatten(t.keys), Flatten(MetadataRows(t));
      && |buf| == |t.keys| * SYMBOL_SIZE && i * SYMBOL_SIZE + SYMBOL_SIZE <= |buf|
      && var vs := Record(buf, SYMBOL_WIDTHS, SYMBOL_SIZE, i);
      && vs[0] + vs[1] <= |names| && names[vs[0]..vs[0] + vs[1]] == t.keys[i]
      && vs[2] + vs[3] <= |meta| && meta[vs[2]..vs[2] + vs[3]] == Flatten(RefRows(t.refs[t.keys[i]]))
  {
    hide Flatten, Pack, Unpack, Offset, Sum;
    var vs := SymbolFields(t.keys, MetadataRows(t), i);
    RecordSizes();
    SymbolFieldsFit(t.keys, MetadataRows(t), i);
    SymbolFieldsSlice(t.keys, MetadataRows(t), i, vs);
    WideLength(SymbolRows(t), SYMBOL_SIZE);
    RecordOfRows(SymbolRows(t), SYMBOL_WIDTHS, SYMBOL_SIZE, i, vs);
  }

  /** The reference a reader sees in seven unpacked fields. */
  function RefOf(vs: seq<nat>): Ref
    requires |vs| == 7
  {
    Ref(vs[0], Meta(vs[1] != 0, vs[2] % 256, vs[3] % 256, vs[4] % 256, vs[5] % 256, vs[6]))
  }

  lemma RefRoundTrip(refs: seq<Ref>, i: nat)
    requires i < |refs| && RefFits(refs[i])
    ensures var buf := Flatten(RefRows(refs));
      && |buf| == |refs| * REF_SIZE && i * REF_SIZE + REF_SIZE <= |buf|
      && RefOf(Record(buf, REF_WIDTHS, REF_SIZE, i)) == refs[i]
  {
    hide Flatten, Pack, Unpack, Sum;
    var m := refs[i].meta;
    var vs := [refs[i].fileId, if m.isDefined then 1 else 0, m.sourceSection, m.symbolType, m.bind, m.visibility,
               m.offset];
    RecordSizes();
    RefFieldsFit(refs[i]);
    WideLength(RefRows(refs), REF_SIZE);
    RecordOfRows(RefRows(refs), REF_WIDTHS, REF_SIZE, i, vs);
  }

  lemma RefFieldsFit(r: Ref)
    requires RefFits(r)
    ensures var m := r.meta; FieldsFit(REF_WIDTHS,
      [r.fileId, if m.isDefined then 1 else 0, m.sourceSection, m.symbolType, m.bind, m.visibility, m.offset])
  {
    Widths();
  }

  function SlotOf(vs: seq<nat>): Slot
    requires |vs| == 3
  {
    Slot(vs[0], vs[1], vs[2])
  }

  lemma SlotRoundTrip(slots: seq<Slot>, i: nat)
    requires i < |slots| && slots[i].code < U32 && slots[i].postingOffset < U32 && slots[i].postingCount < U32
    ensures var buf := Flatten(SlotRows(slots));
      && i * SLOT_SIZE + SLOT_SIZE <= |buf|
      && SlotOf(Record(buf, SLOT_WIDTHS, SLOT_SIZE, i)) == slots[i]
  {
    Widths();
    RecordOfRows(SlotRows(slots), SLOT_WIDTHS, SLOT_SIZE, i,
                 [slots[i].code, slots[i].postingOffset, slots[i].postingCount]);
  }

  /** The posting array as a reader sees it: 32-bit little-endian words. */
  function PostingAt(buf: Text, i: nat): nat
    requires i * 4 + 4 <= |buf|
  {
    FromLE(buf[i * 4..i * 4 + 4])
  }

  lemma PostingRoundTrip(postings: seq<nat>, i: nat)
    requires i < |postings| && postings[i] < U32
    ensures var buf := Flatten(PostingRows(postings)); i * 4 + 4 <= |buf| && PostingAt(buf, i) == postings[i]
  {
    Widths();
    WideAt(PostingRows(postings), 4, i);
    FromLEOfLE(4, postings[i]);
  }
}
