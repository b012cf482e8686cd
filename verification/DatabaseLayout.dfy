/** The database file byte by byte: what a program that knows the layout of the structures, and nothing of
    this one, finds where. */
module DatabaseLayout {
  import opened Bytes
  import opened Packing
  import opened Sequences
  import opened SymbolTables
  import opened Trigrams
  import opened OpenAddressing
  import opened TrigramIndex
  import opened DatabaseFormat
  import opened DatabaseStore
  import opened DatabaseImage
  import H = DatabaseHeader

  // ---- Numbers ------------------------------------------------------------------------------------

  lemma LEOne(w: nat, v: nat)
    requires w > 0
    ensures LE(w, v) == [v % 256] + LE(w - 1, v / 256)
    ensures w == 1 ==> LE(w, v) == [v % 256]
  {
    assert LE(0, v / 256) == [];
  }

  /** Numbers are written lowest byte first. */
  lemma NumberBytes(v: nat)
    ensures LE(4, v) == [v % 256, v / 256 % 256, v / 256 / 256 % 256, v / 256 / 256 / 256 % 256]
  {
    hide LE;
    LEOne(4, v);
    LEOne(3, v / 256);
    LEOne(2, v / 256 / 256);
    LEOne(1, v / 256 / 256 / 256);
  }

  /** Long numbers are two short ones, the lower one first. */
  lemma LongNumberBytes(v: nat)
    ensures LE(8, v) == LE(4, v) + LE(4, v / 256 / 256 / 256 / 256)
  {
    hide LE;
    var a, b, c, d: nat := v % 256, v / 256 % 256, v / 256 / 256 % 256, v / 256 / 256 / 256 % 256;
    var high := LE(4, v / 256 / 256 / 256 / 256);
    NumberBytes(v);
    LEOne(8, v);
    LEOne(7, v / 256);
    LEOne(6, v / 256 / 256);
    LEOne(5, v / 256 / 256 / 256);
    assert [a] + ([b] + ([c] + ([d] + high))) == [a, b, c, d] + high;
  }

  // ---- Records ------------------------------------------------------------------------------------

  lemma PackOne(w: nat, v: nat, ws: seq<nat>, vs: seq<nat>)
    requires |ws| == |vs|
    ensures Pack([w] + ws, [v] + vs) == LE(w, v) + Pack(ws, vs)
  {
    assert ([w] + ws)[1..] == ws && ([v] + vs)[1..] == vs;
  }

  lemma PackTwo(v: nat, w: nat)
    ensures Pack([4, 4], [v, w]) == LE(4, v) + LE(4, w)
  {
    hide LE;
    PackOne(4, v, [4], [w]);
    PackOne(4, w, [], []);
    assert [4] + [4] == [4, 4] && [v] + [w] == [v, w] && [4] + [] == [4] && [w] + [] == [w];
  }

  lemma PackThree(u: nat, v: nat, w: nat)
    ensures Pack([4, 4, 4], [u, v, w]) == LE(4, u) + LE(4, v) + LE(4, w)
  {
    hide LE, Pack;
    PackOne(4, u, [4, 4], [v, w]);
    PackTwo(v, w);
    assert LE(4, u) + (LE(4, v) + LE(4, w)) == LE(4, u) + LE(4, v) + LE(4, w);
    assert [4] + [4, 4] == [4, 4, 4] && [u] + [v, w] == [u, v, w];
  }

  /** Files: the directory, where the name starts in the name blob, and its length. */
  lemma FileLayout(files: seq<FileInfo>, i: nat)
    requires i < |files|
    ensures FileRow(files, i)
      == LE(4, files[i].pathId) + LE(4, |Flatten(FileNames(files)[..i])|) + LE(4, |files[i].name|)
  {
    FlattenLength(FileNames(files), i);
    PackThree(files[i].pathId, Offset(FileNames(files), i), |files[i].name|);
  }

  lemma PathLayout(paths: seq<Text>, i: nat)
    requires i < |paths|
    ensures PathRow(paths, i) == LE(4, |Flatten(paths[..i])|) + LE(4, |paths[i]|)
  {
    FlattenLength(paths, i);
    PackTwo(Offset(paths, i), |paths[i]|);
  }

  /** Symbols: where the name starts and its length, where the references start and how many bytes they
      take, thirteen for each. */
  lemma SymbolLayout(t: Table, i: nat)
    requires Valid(t) && i < |t.keys|
    ensures SymbolRow(t, i)
      == LE(4, |Flatten(t.keys[..i])|) + LE(4, |t.keys[i]|)
         + LE(4, |Flatten(MetadataRows(t)[..i])|) + LE(4, 13 * |t.refs[t.keys[i]]|)
  {
    hide LE, Flatten, RefBytes, Pack, MetadataRows, RefRows, Offset;
    var metas := MetadataRows(t);
    FlattenLength(t.keys, i);
    FlattenLength(metas, i);
    WideLength(RefRows(t.refs[t.keys[i]]), REF_SIZE);
    var a, b, c, d := Offset(t.keys, i), |t.keys[i]|, Offset(metas, i), |metas[i]|;
    PackOne(4, a, [4, 4, 4], [b, c, d]);
    PackThree(b, c, d);
    assert [4] + [4, 4, 4] == [4, 4, 4, 4] && [a] + [b, c, d] == [a, b, c, d];
    assert LE(4, a) + (LE(4, b) + LE(4, c) + LE(4, d)) == LE(4, a) + LE(4, b) + LE(4, c) + LE(4, d);
  }

  /** References: the file, then defined or not, section, type, binding and visibility in a byte each, then
      the place in the file. */
  lemma RefLayout(r: Ref)
    ensures RefBytes(r)
      == LE(4, r.fileId) + [if r.meta.isDefined then 1 else 0, r.meta.sourceSection, r.meta.symbolType, r.meta.bind,
                            r.meta.visibility] + LE(4, r.meta.offset)
  {
    hide LE, Pack;
    var m := r.meta;
    FieldsOfRef(r.fileId, if m.isDefined then 1 else 0, m.sourceSection, m.symbolType, m.bind, m.visibility, m.offset);
  }

  lemma FieldsOfRef(file: nat, a: Byte, b: Byte, c: Byte, d: Byte, e: Byte, offset: nat)
    ensures Pack([4, 1, 1, 1, 1, 1, 4], [file, a, b, c, d, e, offset]) == LE(4, file) + [a, b, c, d, e] + LE(4, offset)
  {
    hide LE, Pack;
    PackBytes([1, 1, 1, 1, 1], [a, b, c, d, e]);
    PackLast(4, offset);
    PackAppend([1, 1, 1, 1, 1], [a, b, c, d, e], [4], [offset]);
    PackOne(4, file, [1, 1, 1, 1, 1, 4], [a, b, c, d, e, offset]);
    assert [1, 1, 1, 1, 1] + [4] == [1, 1, 1, 1, 1, 4] && [4] + [1, 1, 1, 1, 1, 4] == [4, 1, 1, 1, 1, 1, 4];
    ghost var bytes: seq<nat> := [a, b, c, d, e];
    assert bytes + [offset] == [a, b, c, d, e, offset];
    assert [file] + [a, b, c, d, e, offset] == [file, a, b, c, d, e, offset];
    assert LE(4, file) + ([a, b, c, d, e] + LE(4, offset)) == LE(4, file) + [a, b, c, d, e] + LE(4, offset);
  }

  lemma {:induction false} PackAppend(ws: seq<nat>, vs: seq<nat>, ws': seq<nat>, vs': seq<nat>)
    requires |ws| == |vs| && |ws'| == |vs'|
    ensures Pack(ws + ws', vs + vs') == Pack(ws, vs) + Pack(ws', vs')
  {
    hide LE;
    if ws == [] {
      assert ws + ws' == ws' && vs + vs' == vs';
    } else {
      PackAppend(ws[1..], vs[1..], ws', vs');
      assert (ws + ws')[1..] == ws[1..] + ws' && (vs + vs')[1..] == vs[1..] + vs';
    }
  }

  lemma {:induction false} PackBytes(ws: seq<nat>, bytes: Text)
    requires |ws| == |bytes| && forall i | 0 <= i < |ws| :: ws[i] == 1
    ensures Pack(ws, bytes) == bytes
  {
    hide LE;
    if ws != [] {
      OneByte(bytes[0]);
      PackBytes(ws[1..], bytes[1..]);
    }
  }

  lemma OneByte(b: nat)
    requires b < 256
    ensures LE(1, b) == [b]
  {
    hide LE;
    LEOne(1, b);
  }

  lemma PackLast(w: nat, v: nat)
    ensures Pack([w], [v]) == LE(w, v)
  {
    PackOne(w, v, [], []);
  }

  /** Slots: the code, where its list starts, counted in postings, and how long it is.  A free slot starts
      with four bytes 255. */
  lemma SlotLayout(s: Slot)
    ensures SlotBytes(s) == LE(4, s.code) + LE(4, s.postingOffset) + LE(4, s.postingCount)
    ensures SlotBytes(FREE_SLOT) == [255, 255, 255, 255, 0, 0, 0, 0, 0, 0, 0, 0]
  {
    hide LE, Pack;
    PackThree(s.code, s.postingOffset, s.postingCount);
    PackThree(0xFFFF_FFFF, 0, 0);
    NumberBytes(0xFFFF_FFFF);
    NumberBytes(0);
  }

  // ---- The hash table -----------------------------------------------------------------------------

  /** The slots are 16 or so many that half of them would be more than 0.7 full, and no more than 0.7 of them
      are taken. */
  lemma SlotCount(tt: TrigramTable, names: seq<Text>)
    requires TrigramsFor(tt, names)
    ensures 10 * |tt.codes| <= 7 * |tt.slots|
    ensures |tt.slots| == 16 || (|tt.slots| >= 32 && 10 * |tt.codes| > 7 * (|tt.slots| / 2))
    ensures |set j | 0 <= j < |tt.slots| && tt.slots[j].code != 0xFFFF_FFFF| == |tt.codes|
    ensures forall x :: x in tt.codes <==> exists i :: 0 <= i < |names| && x in TrigramSeq(names[i])
  {
    hide Overloaded, Pow2, Postings, TrigramSeq;
    LoadInRange(|tt.codes|, tt.bits);
    assert UsedSlots(tt.slots) == set j | 0 <= j < |tt.slots| && tt.slots[j].code != 0xFFFF_FFFF;
    forall x ensures x in tt.codes <==> exists i :: 0 <= i < |names| && x in TrigramSeq(names[i]) {
      SomeHolder(names, x);
    }
  }

  lemma LoadInRange(count: nat, bits: nat)
    requires LeastCapacity(count, bits) && bits <= 25 && count < Pow2(bits)
    ensures 10 * count <= 7 * Pow2(bits)
    ensures Pow2(bits) == 16 || (Pow2(bits) >= 32 && 10 * count > 7 * (Pow2(bits) / 2))
  {
    hide Overloaded, Pow2;
    Pow2Values();
    Pow2Monotone(bits, 25);
    DoubleGuardIsExact(count, bits);
    if bits > 4 {
      NextPower(4);
      NextPower(bits - 1);
      Pow2Monotone(5, bits);
      DoubleGuardIsExact(count, bits - 1);
    }
  }

  lemma SomeHolder(names: seq<Text>, x: nat)
    ensures Postings(names, x) != [] <==> exists i :: 0 <= i < |names| && x in TrigramSeq(names[i])
  {
    hide TrigramSeq, Postings;
    if Postings(names, x) != [] {
      var i := Postings(names, x)[0];
      PostingsAreTheHolders(names, x, i);
      assert 0 <= i < |names| && x in TrigramSeq(names[i]);
    }
    if i :| 0 <= i < |names| && x in TrigramSeq(names[i]) {
      PostingsAreTheHolders(names, x, i);
    }
  }

  /** A slot is free, or its postings are the ids of the names that hold its code, lowest first. */
  lemma SlotLists(tt: TrigramTable, names: seq<Text>, s: Slot)
    requires TrigramsFor(tt, names) && s in tt.slots
    ensures s.code == 0xFFFF_FFFF || (
      && s.postingOffset + s.postingCount <= |tt.postings|
      && var list := tt.postings[s.postingOffset..s.postingOffset + s.postingCount];
      && Increasing(list)
      && forall i: nat :: i in list <==> i < |names| && s.code in TrigramSeq(names[i]))
  {
    hide Overloaded, Pow2, TrigramSeq, Postings, LeastCapacity, Found, HashFits, UsedSlots;
    if s.code != 0xFFFF_FFFF {
      forall i: nat ensures i in Postings(names, s.code) <==> i < |names| && s.code in TrigramSeq(names[i]) {
        PostingsAreTheHolders(names, s.code, i);
      }
    }
  }

  /** The k-th slot from the home slot on, round the end of the table. */
  function Onward(home: nat, k: nat, n: nat): int {
    if home + k < n then home + k else home + k - n
  }

  /** Every code of a name is met on the way from its home slot on, before the first free slot. */
  lemma CodeIsMet(tt: TrigramTable, names: seq<Text>, i: nat, x: nat) returns (k: nat)
    requires TrigramsFor(tt, names) && i < |names| && x in TrigramSeq(names[i])
    ensures var n, home := |tt.slots|, HomeSlot(x, tt.bits);
      && n == Pow2(tt.bits) && k < n && home < n && tt.slots[Onward(home, k, n)].code == x
      && forall j: nat | j < k :: tt.slots[Onward(home, j, n)].code != 0xFFFF_FFFF
  {
    hide Overloaded, LeastCapacity, TrigramSeq, Postings, Probe, HomeSlot;
    SomeHolder(names, x);
    HomeIsHash(tt.bits, x);
    k := FoundInRound(tt.slots, HomeSlot(x, tt.bits), x);
  }

  lemma FoundInRound(slots: seq<Slot>, home: nat, x: nat) returns (k: nat)
    requires home < |slots| && Found(slots, home, x) && |UsedSlots(slots)| < |slots|
    ensures k < |slots| && slots[Onward(home, k, |slots|)].code == x
    ensures forall j: nat | j < k :: slots[Onward(home, j, |slots|)].code != 0xFFFF_FFFF
  {
    hide UsedSlots, Probe;
    k :| FoundAfter(slots, home, x, k);
    var free := FreeSlotExists(slots);
    var d := ProbeReaches(home, |slots|, free);
    assert k <= d;
    ProbeWithinRound(home, |slots|, k);
    forall j: nat | j < k ensures slots[Onward(home, j, |slots|)].code != 0xFFFF_FFFF {
      ProbeWithinRound(home, |slots|, j);
    }
  }

  // ---- The header ---------------------------------------------------------------------------------

  function PlaceBytes(s: H.Stored): Text {
    LE(4, s.offset) + LE(4, s.length) + LE(4, s.uncompressed)
  }

  function TableHeaderBytes(t: H.TableHeader): Text {
    PlaceBytes(t.index) + PlaceBytes(t.names) + LE(4, t.total) + LE(8, t.count)
  }

  function SymbolHeaderBytes(t: H.SymbolHeader): Text {
    PlaceBytes(t.index) + PlaceBytes(t.names) + PlaceBytes(t.metadata) + LE(4, t.total) + LE(8, t.count)
  }

  function TrigramHeaderBytes(t: H.TrigramHeader): Text {
    PlaceBytes(t.index) + LE(8, t.capacity) + PlaceBytes(t.postings)
    + LE(8, t.postingsCount) + LE(8, t.trigramsCount) + LE(8, t.symbolsCount)
  }

  function PreambleBytes(h: H.Header): Text {
    LE(8, h.magic) + LE(4, h.version) + LE(8, h.confOffset) + LE(8, h.confLength) + LE(8, h.dictOffset)
    + LE(8, h.dictLength)
  }

  lemma PackSnoc(ws: seq<nat>, vs: seq<nat>, w: nat, v: nat)
    requires |ws| == |vs|
    ensures Pack(ws + [w], vs + [v]) == Pack(ws, vs) + LE(w, v)
  {
    hide LE, Pack;
    PackAppend(ws, vs, [w], [v]);
    PackLast(w, v);
  }

  lemma TableHeaderLayout(t: H.TableHeader)
    ensures Pack(H.TABLE, H.TableHeaderFields(t)) == TableHeaderBytes(t)
  {
    hide LE, Pack;
    var a, b := H.StoredFields(t.index), H.StoredFields(t.names);
    StoredLayout(t.index);
    StoredLayout(t.names);
    PackAppend(H.STORED, a, H.STORED, b);
    PackSnoc(H.STORED + H.STORED, a + b, 4, t.total);
    PackSnoc(H.STORED + H.STORED + [4], a + b + [t.total], 8, t.count);
    assert H.STORED + H.STORED + [4] + [8] == H.TABLE && a + b + [t.total] + [t.count] == H.TableHeaderFields(t);
  }

  lemma StoredLayout(s: H.Stored)
    ensures Pack(H.STORED, H.StoredFields(s)) == PlaceBytes(s)
  {
    PackThree(s.offset, s.length, s.uncompressed);
  }

  lemma SymbolHeaderLayout(t: H.SymbolHeader)
    ensures Pack(H.SYMBOLS, H.SymbolHeaderFields(t)) == SymbolHeaderBytes(t)
  {
    hide LE, Pack;
    var a, b, c := H.StoredFields(t.index), H.StoredFields(t.names), H.StoredFields(t.metadata);
    StoredLayout(t.index);
    StoredLayout(t.names);
    StoredLayout(t.metadata);
    PackAppend(H.STORED, a, H.STORED, b);
    PackAppend(H.STORED + H.STORED, a + b, H.STORED, c);
    PackSnoc(H.STORED + H.STORED + H.STORED, a + b + c, 4, t.total);
    PackSnoc(H.STORED + H.STORED + H.STORED + [4], a + b + c + [t.total], 8, t.count);
    assert H.STORED + H.STORED + H.STORED + [4] + [8] == H.SYMBOLS;
    assert a + b + c + [t.total] + [t.count] == H.SymbolHeaderFields(t);
  }

  lemma TrigramHeaderLayout(t: H.TrigramHeader)
    ensures Pack(H.TRIGRAMS, H.TrigramHeaderFields(t)) == TrigramHeaderBytes(t)
  {
    hide LE, Pack;
    var a, b, w := H.StoredFields(t.index), H.StoredFields(t.postings), H.STORED + [8] + H.STORED;
    var v := a + [t.capacity] + b;
    StoredLayout(t.index);
    StoredLayout(t.postings);
    PackSnoc(H.STORED, a, 8, t.capacity);
    PackAppend(H.STORED + [8], a + [t.capacity], H.STORED, b);
    PackSnoc(w, v, 8, t.postingsCount);
    PackSnoc(w + [8], v + [t.postingsCount], 8, t.trigramsCount);
    PackSnoc(w + [8] + [8], v + [t.postingsCount] + [t.trigramsCount], 8, t.symbolsCount);
    assert w + [8] + [8] + [8] == H.TRIGRAMS;
    assert v + [t.postingsCount] + [t.trigramsCount] + [t.symbolsCount] == H.TrigramHeaderFields(t);
  }

  lemma PreambleLayout(h: H.Header)
    ensures Pack(H.PREAMBLE, H.PreambleFields(h)) == PreambleBytes(h)
  {
    hide LE, Pack;
    var w, v := [8] + [4] + [8], [h.magic] + [h.version] + [h.confOffset];
    PackLast(8, h.magic);
    PackSnoc([8], [h.magic], 4, h.version);
    PackSnoc([8] + [4], [h.magic] + [h.version], 8, h.confOffset);
    PackSnoc(w, v, 8, h.confLength);
    PackSnoc(w + [8], v + [h.confLength], 8, h.dictOffset);
    PackSnoc(w + [8] + [8], v + [h.confLength] + [h.dictOffset], 8, h.dictLength);
    assert w + [8] + [8] + [8] == H.PREAMBLE;
    assert v + [h.confLength] + [h.dictOffset] + [h.dictLength] == H.PreambleFields(h);
  }

  /** The header: every field of the packed structures, in the order of their declaration. */
  lemma HeaderLayout(h: H.Header)
    ensures H.EncodeHeader(h) == PreambleBytes(h) + TableHeaderBytes(h.files) + TableHeaderBytes(h.paths)
                                 + SymbolHeaderBytes(h.symbols) + TrigramHeaderBytes(h.trigrams)
  {
    hide LE, Pack, PreambleBytes, TableHeaderBytes, SymbolHeaderBytes, TrigramHeaderBytes;
    PreambleLayout(h);
    TableHeaderLayout(h.files);
    TableHeaderLayout(h.paths);
    SymbolHeaderLayout(h.symbols);
    TrigramHeaderLayout(h.trigrams);
    var a, b, c := H.PreambleFields(h), H.TableHeaderFields(h.files), H.TableHeaderFields(h.paths);
    var d, e := H.SymbolHeaderFields(h.symbols), H.TrigramHeaderFields(h.trigrams);
    FivePacked(H.PREAMBLE, a, H.TABLE, b, H.TABLE, c, H.SYMBOLS, d, H.TRIGRAMS, e);
    EncodedByParts(h, a, b, c, d, e);
  }

  lemma EncodedByParts(h: H.Header, a: seq<nat>, b: seq<nat>, c: seq<nat>, d: seq<nat>, e: seq<nat>)
    requires H.Fields(h) == a + b + c + d + e
    ensures H.EncodeHeader(h) == Pack(H.PREAMBLE + H.TABLE + H.TABLE + H.SYMBOLS + H.TRIGRAMS, a + b + c + d + e)
  {
    hide Pack, H.Fields;
  }

  lemma FivePacked(ws: seq<nat>, vs: seq<nat>, ws': seq<nat>, vs': seq<nat>, ws'': seq<nat>, vs'': seq<nat>,
                   xs: seq<nat>, us: seq<nat>, xs': seq<nat>, us': seq<nat>)
    requires |ws| == |vs| && |ws'| == |vs'| && |ws''| == |vs''| && |xs| == |us| && |xs'| == |us'|
    ensures Pack(ws + ws' + ws'' + xs + xs', vs + vs' + vs'' + us + us')
      == Pack(ws, vs) + Pack(ws', vs') + Pack(ws'', vs'') + Pack(xs, us) + Pack(xs', us')
  {
    hide Pack;
    PackAppend(ws, vs, ws', vs');
    PackAppend(ws + ws', vs + vs', ws'', vs'');
    PackAppend(ws + ws' + ws'', vs + vs' + vs'', xs, us);
    PackAppend(ws + ws' + ws'' + xs, vs + vs' + vs'' + us, xs', us');
  }

  // ---- The file -----------------------------------------------------------------------------------

  /** A file starts with the magic number, lowest byte first, and the version 0.1.0. */
  lemma FileStarts(bytes: Text, c: Content, z: Codec, tt: TrigramTable, packed: seq<Text>)
    requires ImageOf(bytes, c, z, tt, packed)
    ensures |bytes| >= 220 && bytes[..12] == [0, 100, 110, 105, 102, 109, 121, 115] + [0, 1, 0, 0]
  {
    hide LE, TrigramsFor, CompressedAs, Plain, Flatten, H.EncodeHeader;
    MagicBytes();
    StartOf(bytes, HeaderFor(c, tt, packed), c, packed);
  }

  lemma MagicBytes()
    ensures LE(8, H.MAGIC) == [0, 100, 110, 105, 102, 109, 121, 115] && LE(4, H.VERSION) == [0, 1, 0, 0]
  {
    hide LE;
    LEJoined(8, 0, 0x73_796D_6669_6E64);
    LEJoined(7, 0x64, 0x7379_6D66_696E);
    LEJoined(6, 0x6E, 0x73_796D_6669);
    LEJoined(5, 0x69, 0x7379_6D66);
    LEJoined(4, 0x66, 0x73_796D);
    LEJoined(3, 0x6D, 0x7379);
    LEJoined(2, 0x79, 0x73);
    LEOne(1, 0x73);
    LEJoined(4, 0, 1);
    LEJoined(3, 1, 0);
    LEJoined(2, 0, 0);
    LEOne(1, 0);
  }

  lemma LEJoined(w: nat, low: Byte, high: nat)
    requires w > 0
    ensures LE(w, 256 * high + low) == [low] + LE(w - 1, high)
  {
    LEOne(w, 256 * high + low);
  }

  lemma StartOf(bytes: Text, h: H.Header, c: Content, packed: seq<Text>)
    requires bytes == H.EncodeHeader(h) + c.conf + DictBytes(c) + Flatten(packed)
    ensures |bytes| >= 220 && bytes[..12] == LE(8, h.magic) + LE(4, h.version)
  {
    hide LE, Flatten;
    HeaderLayout(h);
    var raw := H.EncodeHeader(h);
    assert raw[..12] == LE(8, h.magic) + LE(4, h.version);
    assert bytes[..12] == raw[..12];
  }

  /** One block follows the other. */
  predicate Follows(s: H.Stored, s': H.Stored) {
    s'.offset == s.offset + s.length
  }

  /** The nine blocks stand behind header, configuration and dictionary, each where the one before ends, and
      the last one ends the file. */
  lemma BlocksInOrder(bytes: Text, c: Content, z: Codec, tt: TrigramTable, packed: seq<Text>)
    requires ImageOf(bytes, c, z, tt, packed) && FormatFits(c, tt, packed)
    ensures |bytes| >= 220 && var h := HeaderOf(bytes);
      && h.confOffset == 220 && h.confLength == |c.conf|
      && (c.dict.Some? ==> h.dictOffset == 220 + |c.conf| && h.dictLength == |c.dict.value|)
      && (c.dict.None? ==> h.dictOffset == 0 && h.dictLength == 0)
      && h.files.index.offset == 220 + |c.conf| + (if c.dict.Some? then |c.dict.value| else 0)
      && Follows(h.files.index, h.files.names) && Follows(h.files.names, h.paths.index)
      && Follows(h.paths.index, h.paths.names) && Follows(h.paths.names, h.symbols.index)
      && Follows(h.symbols.index, h.symbols.names) && Follows(h.symbols.names, h.symbols.metadata)
      && Follows(h.symbols.metadata, h.trigrams.index) && Follows(h.trigrams.index, h.trigrams.postings)
      && h.trigrams.postings.offset + h.trigrams.postings.length == |bytes|
  {
    hide Plain, Flatten, TrigramsFor, CompressedAs;
    ImageHeaderFits(c, tt, packed);
    ImageHeader(bytes, c, z, tt, packed);
    ImageDict(bytes, c, z, tt, packed);
    PackedOffsets(packed, []);
  }

  /** The header counts files, directories, symbols, slots, postings and codes, and adds up the lengths. */
  lemma CountsInHeader(bytes: Text, c: Content, z: Codec, tt: TrigramTable, packed: seq<Text>)
    requires ImageOf(bytes, c, z, tt, packed) && FormatFits(c, tt, packed)
    ensures |bytes| >= 220 && var h := HeaderOf(bytes);
      && h.files.count == |c.files| && h.paths.count == |c.paths| && h.symbols.count == |c.table.keys|
      && h.trigrams.capacity == |tt.slots| && h.trigrams.postingsCount == |tt.postings|
      && h.trigrams.trigramsCount == |tt.codes|
      && h.trigrams.symbolsCount == |set i | 0 <= i < |c.table.keys| && c.table.keys[i] != []|
      && h.files.total == h.files.index.length + h.files.names.length
      && h.paths.total == h.paths.index.length + h.paths.names.length
      && h.symbols.total == h.symbols.index.length + h.symbols.names.length + h.symbols.metadata.length
  {
    hide Plain, Flatten, TrigramsFor, CompressedAs, NonEmptyCount;
    ImageHeaderFits(c, tt, packed);
    ImageHeader(bytes, c, z, tt, packed);
    NonEmptyCountIs(c.table.keys);
  }

  /** What the library made of a block: the bytes the header names, and the length it had before. */
  ghost predicate BlockIs(bytes: Text, z: Codec, dict: Text, plain: Text, s: H.Stored) {
    && s.offset + s.length <= |bytes| && s.uncompressed == |plain|
    && z.compress(dict, plain) == Some(bytes[s.offset..s.offset + s.length])
  }

  lemma BlockOfImage(bytes: Text, c: Content, z: Codec, tt: TrigramTable, packed: seq<Text>, i: nat)
    requires ImageOf(bytes, c, z, tt, packed) && FormatFits(c, tt, packed) && i < BLOCKS
    ensures |bytes| >= 220
    ensures BlockIs(bytes, z, DictFor(DictBytes(c), i), Plain(c, tt)[i], StoredBlocks(HeaderOf(bytes))[i])
  {
    hide Plain, Flatten, TrigramsFor, CompressedAs, DictFor, HeaderFor, StoredBlocks;
    ImageHeaderFits(c, tt, packed);
    ImageHeader(bytes, c, z, tt, packed);
    ImageDict(bytes, c, z, tt, packed);
    PlainFits(c, tt, packed);
    StoredIsExpected(c, tt, packed, i);
    SliceBehind(bytes, BlocksStart(c), packed, i);
    CompressedWhole(z, DictBytes(c), Plain(c, tt), packed, i);
  }

  lemma CompressedWhole(z: Codec, dict: Text, plain: seq<Text>, packed: seq<Text>, i: nat)
    requires CompressedAs(z, dict, plain, packed) && i < |packed| && |plain[i]| < U32
    ensures z.compress(DictFor(dict, i), plain[i]) == Some(packed[i])
  {
    TakeAll(plain[i]);
  }

  /** The blocks are the compressed tables; the three blobs of names use the dictionary. */
  lemma BlocksHoldTables(bytes: Text, c: Content, z: Codec, tt: TrigramTable, packed: seq<Text>)
    requires ImageOf(bytes, c, z, tt, packed) && FormatFits(c, tt, packed)
    ensures |bytes| >= 220 && var h, dict := HeaderOf(bytes), DictBytes(c);
      && BlockIs(bytes, z, [], Flatten(FileRows(c.files)), h.files.index)
      && BlockIs(bytes, z, dict, Flatten(FileNames(c.files)), h.files.names)
      && BlockIs(bytes, z, [], Flatten(PathRows(c.paths)), h.paths.index)
      && BlockIs(bytes, z, dict, Flatten(c.paths), h.paths.names)
      && BlockIs(bytes, z, [], Flatten(SymbolRows(c.table)), h.symbols.index)
      && BlockIs(bytes, z, dict, Flatten(c.table.keys), h.symbols.names)
      && BlockIs(bytes, z, [], Flatten(MetadataRows(c.table)), h.symbols.metadata)
      && BlockIs(bytes, z, [], Flatten(SlotRows(tt.slots)), h.trigrams.index)
      && BlockIs(bytes, z, [], Flatten(PostingRows(tt.postings)), h.trigrams.postings)
  {
    hide Flatten, TrigramsFor, CompressedAs, FormatFits, HeaderOf, BlockIs;
    hide FileRows, PathRows, SymbolRows, MetadataRows, SlotRows, PostingRows;
    forall i | 0 <= i < BLOCKS
      ensures |bytes| >= 220
      ensures BlockIs(bytes, z, DictFor(DictBytes(c), i), Plain(c, tt)[i], StoredBlocks(HeaderOf(bytes))[i])
    {
      BlockOfImage(bytes, c, z, tt, packed, i);
    }
    BlockOfImage(bytes, c, z, tt, packed, 0);
    var s := StoredBlocks(HeaderOf(bytes));
    assert s[0] == HeaderOf(bytes).files.index && s[8] == HeaderOf(bytes).trigrams.postings;
  }
}
