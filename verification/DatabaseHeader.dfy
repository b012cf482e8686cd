/** The fixed-size header at the start of the database file. */
module DatabaseHeader {
  import opened Bytes
  import opened Packing

  const MAGIC: nat := 0x7379_6D66_696E_6400
  const VERSION: nat := 0x100

  /** Where a compressed block is stored and how long it is before compression. */
  datatype Stored = Stored(offset: nat, length: nat, uncompressed: nat)

  datatype TableHeader = TableHeader(index: Stored, names: Stored, total: nat, count: nat)

  datatype SymbolHeader = SymbolHeader(index: Stored, names: Stored, metadata: Stored, total: nat, count: nat)

  datatype TrigramHeader = TrigramHeader(
    index: Stored, capacity: nat, postings: Stored, postingsCount: nat, trigramsCount: nat, symbolsCount: nat)

  datatype Header = Header(
    magic: nat, version: nat, confOffset: nat, confLength: nat, dictOffset: nat, dictLength: nat,
    files: TableHeader, paths: TableHeader, symbols: SymbolHeader, trigrams: TrigramHeader)

  const STORED: seq<nat> := [4, 4, 4]
  const TABLE: seq<nat> := STORED + STORED + [4, 8]
  const SYMBOLS: seq<nat> := STORED + STORED + STORED + [4, 8]
  const TRIGRAMS: seq<nat> := STORED + [8] + STORED + [8, 8, 8]
  const PREAMBLE: seq<nat> := [8, 4, 8, 8, 8, 8]
  const HEADER_WIDTHS: seq<nat> := PREAMBLE + TABLE + TABLE + SYMBOLS + TRIGRAMS

  /** sizeof(DatabaseHeader) */
  const HEADER_SIZE := 220

  lemma {:induction false} SumAppend(a: seq<nat>, b: seq<nat>)
    ensures Sum(a + b) == Sum(a) + Sum(b)
  {
    if a == [] {
      assert a + b == b;
    } else {
      SumAppend(a[1..], b);
      assert (a + b)[1..] == a[1..] + b;
    }
  }

  lemma HeaderSize()
    ensures Sum(HEADER_WIDTHS) == HEADER_SIZE
  {
    assert Sum(STORED) == 12 && Sum([4, 8]) == 12 && Sum([8, 8, 8]) == 24 && Sum([8]) == 8;
    assert Sum(PREAMBLE) == 44 by {
      assert PREAMBLE == [8, 4, 8] + [8, 8, 8];
      SumAppend([8, 4, 8], [8, 8, 8]);
    }
    SumAppend(STORED, STORED);
    SumAppend(STORED + STORED, [4, 8]);
    SumAppend(STORED + STORED, STORED);
    SumAppend(STORED + STORED + STORED, [4, 8]);
    SumAppend(STORED, [8]);
    SumAppend(STORED + [8], STORED);
    SumAppend(STORED + [8] + STORED, [8, 8, 8]);
    SumAppend(PREAMBLE, TABLE);
    SumAppend(PREAMBLE + TABLE, TABLE);
    SumAppend(PREAMBLE + TABLE + TABLE, SYMBOLS);
    SumAppend(PREAMBLE + TABLE + TABLE + SYMBOLS, TRIGRAMS);
  }

  function StoredFields(s: Stored): seq<nat> {
    [s.offset, s.length, s.uncompressed]
  }

  function TableHeaderFields(t: TableHeader): seq<nat> {
    StoredFields(t.index) + StoredFields(t.names) + [t.total, t.count]
  }

  function SymbolHeaderFields(t: SymbolHeader): seq<nat> {
    StoredFields(t.index) + StoredFields(t.names) + StoredFields(t.metadata) + [t.total, t.count]
  }

  function TrigramHeaderFields(t: TrigramHeader): seq<nat> {
    StoredFields(t.index) + [t.capacity] + StoredFields(t.postings) + [t.postingsCount, t.trigramsCount, t.symbolsCount]
  }

  function PreambleFields(h: Header): seq<nat> {
    [h.magic, h.version, h.confOffset, h.confLength, h.dictOffset, h.dictLength]
  }

  function Fields(h: Header): (r: seq<nat>)
    ensures |r| == |HEADER_WIDTHS|
  {
    PreambleFields(h) + TableHeaderFields(h.files) + TableHeaderFields(h.paths) + SymbolHeaderFields(h.symbols)
    + TrigramHeaderFields(h.trigrams)
  }

  // ---- Reading ------------------------------------------------------------------------------------

  function StoredOf(vs: seq<nat>): Stored
    requires |vs| == 3
  {
    Stored(vs[0], vs[1], vs[2])
  }

  function TableOfFields(vs: seq<nat>): TableHeader
    requires |vs| == 8
  {
    TableHeader(StoredOf(vs[0..3]), StoredOf(vs[3..6]), vs[6], vs[7])
  }

  function SymbolsOfFields(vs: seq<nat>): SymbolHeader
    requires |vs| == 11
  {
    SymbolHeader(StoredOf(vs[0..3]), StoredOf(vs[3..6]), StoredOf(vs[6..9]), vs[9], vs[10])
  }

  function TrigramsOfFields(vs: seq<nat>): TrigramHeader
    requires |vs| == 10
  {
    TrigramHeader(StoredOf(vs[0..3]), vs[3], StoredOf(vs[4..7]), vs[7], vs[8], vs[9])
  }

  function OfFields(vs: seq<nat>): Header
    requires |vs| == 43
  {
    Header(vs[0], vs[1], vs[2], vs[3], vs[4], vs[5], TableOfFields(vs[6..14]), TableOfFields(vs[14..22]),
           SymbolsOfFields(vs[22..33]), TrigramsOfFields(vs[33..43]))
  }

  lemma SlicesOf<T>(a: seq<T>, b: seq<T>, c: seq<T>, d: seq<T>, e: seq<T>)
    ensures var all := a + b + c + d + e;
      && all[..|a|] == a
      && all[|a|..|a| + |b|] == b
      && all[|a| + |b|..|a| + |b| + |c|] == c
      && all[|a| + |b| + |c|..|a| + |b| + |c| + |d|] == d
      && all[|a| + |b| + |c| + |d|..] == e
  {
  }

  lemma TableHeaderBack(t: TableHeader)
    ensures TableOfFields(TableHeaderFields(t)) == t
  {
    SlicesOf(StoredFields(t.index), StoredFields(t.names), [t.total, t.count], [], []);
  }

  lemma SymbolHeaderBack(t: SymbolHeader)
    ensures SymbolsOfFields(SymbolHeaderFields(t)) == t
  {
    SlicesOf(StoredFields(t.index), StoredFields(t.names), StoredFields(t.metadata), [t.total, t.count], []);
  }

  lemma TrigramHeaderBack(t: TrigramHeader)
    ensures TrigramsOfFields(TrigramHeaderFields(t)) == t
  {
    SlicesOf(StoredFields(t.index), [t.capacity], StoredFields(t.postings),
             [t.postingsCount, t.trigramsCount, t.symbolsCount], []);
  }

  lemma FieldsBack(h: Header)
    ensures OfFields(Fields(h)) == h
  {
    SlicesOf(PreambleFields(h), TableHeaderFields(h.files), TableHeaderFields(h.paths), SymbolHeaderFields(h.symbols),
             TrigramHeaderFields(h.trigrams));
    TableHeaderBack(h.files);
    TableHeaderBack(h.paths);
    SymbolHeaderBack(h.symbols);
    TrigramHeaderBack(h.trigrams);
    assert Fields(h)[..6][0] == h.magic && Fields(h)[..6][1] == h.version && Fields(h)[..6][2] == h.confOffset;
    assert Fields(h)[..6][3] == h.confLength && Fields(h)[..6][4] == h.dictOffset && Fields(h)[..6][5] == h.dictLength;
    assert |Fields(h)| == 43 && Fields(h)[33..43] == Fields(h)[33..];
  }

  function EncodeHeader(h: Header): (r: Text)
    ensures |r| == HEADER_SIZE
  {
    HeaderSize();
    Pack(HEADER_WIDTHS, Fields(h))
  }

  function DecodeHeader(b: Text): Header
    requires |b| == HEADER_SIZE
  {
    HeaderSize();
    OfFields(Unpack(HEADER_WIDTHS, b))
  }

  ghost predicate HeaderFits(h: Header) {
    FieldsFit(HEADER_WIDTHS, Fields(h))
  }

  /** The header a reader decodes is the header that was written. */
  lemma HeaderRoundTrip(h: Header)
    requires HeaderFits(h)
    ensures DecodeHeader(EncodeHeader(h)) == h
  {
    HeaderSize();
    UnpackOfPack(HEADER_WIDTHS, Fields(h));
    FieldsBack(h);
  }

  ghost predicate StoredFits(s: Stored) {
    s.offset < U32 && s.length < U32 && s.uncompressed < U32
  }

  const U64: nat := 0x1_0000_0000_0000_0000

  lemma {:induction false} FitAppend(ws: seq<nat>, vs: seq<nat>, ws': seq<nat>, vs': seq<nat>)
    requires FieldsFit(ws, vs) && FieldsFit(ws', vs')
    ensures FieldsFit(ws + ws', vs + vs')
  {
  }

  lemma StoredFieldsFit(s: Stored)
    requires StoredFits(s)
    ensures FieldsFit(STORED, StoredFields(s))
  {
    Widths();
  }

  lemma TableHeaderFits(t: TableHeader)
    requires StoredFits(t.index) && StoredFits(t.names) && t.total < U32 && t.count < U64
    ensures FieldsFit(TABLE, TableHeaderFields(t))
  {
    Widths();
    StoredFieldsFit(t.index);
    StoredFieldsFit(t.names);
    FitAppend(STORED, StoredFields(t.index), STORED, StoredFields(t.names));
    FitAppend(STORED + STORED, StoredFields(t.index) + StoredFields(t.names), [4, 8], [t.total, t.count]);
  }

  lemma SymbolHeaderFits(t: SymbolHeader)
    requires StoredFits(t.index) && StoredFits(t.names) && StoredFits(t.metadata) && t.total < U32 && t.count < U64
    ensures FieldsFit(SYMBOLS, SymbolHeaderFields(t))
  {
    Widths();
    StoredFieldsFit(t.index);
    StoredFieldsFit(t.names);
    StoredFieldsFit(t.metadata);
    FitAppend(STORED, StoredFields(t.index), STORED, StoredFields(t.names));
    FitAppend(STORED + STORED, StoredFields(t.index) + StoredFields(t.names), STORED, StoredFields(t.metadata));
    FitAppend(STORED + STORED + STORED, StoredFields(t.index) + StoredFields(t.names) + StoredFields(t.metadata),
              [4, 8], [t.total, t.count]);
  }

  lemma TrigramHeaderFits(t: TrigramHeader)
    requires StoredFits(t.index) && StoredFits(t.postings) && t.capacity < U64
    requires t.postingsCount < U64 && t.trigramsCount < U64 && t.symbolsCount < U64
    ensures FieldsFit(TRIGRAMS, TrigramHeaderFields(t))
  {
    Widths();
    StoredFieldsFit(t.index);
    StoredFieldsFit(t.postings);
    FitAppend(STORED, StoredFields(t.index), [8], [t.capacity]);
    FitAppend(STORED + [8], StoredFields(t.index) + [t.capacity], STORED, StoredFields(t.postings));
    FitAppend(STORED + [8] + STORED, StoredFields(t.index) + [t.capacity] + StoredFields(t.postings),
              [8, 8, 8], [t.postingsCount, t.trigramsCount, t.symbolsCount]);
  }

  lemma PartsFit(h: Header)
    requires h.magic < U64 && h.version < U32 && h.confOffset < U64 && h.confLength < U64
    requires h.dictOffset < U64 && h.dictLength < U64
    requires FieldsFit(TABLE, TableHeaderFields(h.files)) && FieldsFit(TABLE, TableHeaderFields(h.paths))
    requires FieldsFit(SYMBOLS, SymbolHeaderFields(h.symbols)) && FieldsFit(TRIGRAMS, TrigramHeaderFields(h.trigrams))
    ensures HeaderFits(h)
  {
    Widths();
    assert FieldsFit(PREAMBLE, PreambleFields(h));
    var a, b := PreambleFields(h), TableHeaderFields(h.files);
    var c, d := TableHeaderFields(h.paths), SymbolHeaderFields(h.symbols);
    FitAppend(PREAMBLE, a, TABLE, b);
    FitAppend(PREAMBLE + TABLE, a + b, TABLE, c);
    FitAppend(PREAMBLE + TABLE + TABLE, a + b + c, SYMBOLS, d);
    FitAppend(PREAMBLE + TABLE + TABLE + SYMBOLS, a + b + c + d, TRIGRAMS, TrigramHeaderFields(h.trigrams));
  }
}
