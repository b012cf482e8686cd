/** The reader: loading a database file, trigram lookup, and answering a symbol query. */
module DatabaseReader {
  import opened Bytes
  import opened Sequences
  import opened Packing
  import opened SymbolTables
  import opened Trigrams
  import opened OpenAddressing
  import opened TrigramIndex
  import opened DatabaseFormat
  import opened DatabaseStore
  import opened DatabaseImage
  import H = DatabaseHeader

  datatype FileReference = FileReference(fullPath: Text, meta: Meta)

  datatype LookupResult = LookupResult(name: Text, references: seq<FileReference>)

  // ---- What a query means -------------------------------------------------------------------------

  /** A path ending in a slash, unless it is empty. */
  function Slashed(path: Text): (r: Text)
    ensures path == [] || path[|path| - 1] == 47 ==> r == path
    ensures path != [] && path[|path| - 1] != 47 ==> r == path + [47]
  {
    if path != [] && path[|path| - 1] != SLASH then path + [SLASH] else path
  }

  /** The full path as the reader puts it together. */
  function ReaderPath(files: seq<FileInfo>, paths: seq<Text>, file: nat): Text
    requires file < |files|
  {
    var info := files[file];
    (if info.pathId < |paths| then Slashed(paths[info.pathId]) else []) + info.name
  }

  /** The references of one symbol that pass the filter, in order. */
  function Kept(c: Content, name: Text, refs: seq<Ref>, keep: (Text, Meta) -> bool): seq<FileReference> {
    if refs == [] then []
    else
      var r, last := Kept(c, name, refs[..|refs| - 1], keep), refs[|refs| - 1];
      if last.fileId < |c.files| && keep(name, last.meta)
      then r + [FileReference(ReaderPath(c.files, c.paths, last.fileId), last.meta)]
      else r
  }

  lemma KeptNothing(c: Content, name: Text, keep: (Text, Meta) -> bool)
    ensures Kept(c, name, [], keep) == []
  {
  }

  lemma KeptSnoc(c: Content, name: Text, refs: seq<Ref>, i: nat, keep: (Text, Meta) -> bool)
    requires i < |refs|
    ensures Kept(c, name, refs[..i + 1], keep) == Kept(c, name, refs[..i], keep) +
      if refs[i].fileId < |c.files| && keep(name, refs[i].meta)
      then [FileReference(ReaderPath(c.files, c.paths, refs[i].fileId), refs[i].meta)] else []
  {
    assert refs[..i + 1][..i] == refs[..i];
  }

  function KeptIf(c: Content, name: Text, keep: (Text, Meta) -> bool): Ref -> seq<FileReference> {
    (r: Ref) =>
      if r.fileId < |c.files| && keep(name, r.meta)
      then [FileReference(ReaderPath(c.files, c.paths, r.fileId), r.meta)] else []
  }

  lemma {:induction false} KeptGathers(c: Content, name: Text, refs: seq<Ref>, keep: (Text, Meta) -> bool)
    ensures Kept(c, name, refs, keep) == Gather(KeptIf(c, name, keep), refs)
  {
    hide ReaderPath;
    if refs != [] {
      KeptGathers(c, name, refs[..|refs| - 1], keep);
    }
  }

  /** The references kept are those to files that are there and that pass the filter, in their order, each
      with its metadata and the path of its file. */
  lemma KeptInOrder(c: Content, name: Text, refs: seq<Ref>, keep: (Text, Meta) -> bool) returns (at: seq<nat>)
    ensures var kept := Kept(c, name, refs, keep);
      && |at| == |kept| && Increasing(at)
      && (forall j: nat :: j in at <==> j < |refs| && refs[j].fileId < |c.files| && keep(name, refs[j].meta))
      && (forall k | 0 <= k < |at| :: at[k] < |refs| && refs[at[k]].fileId < |c.files|
            && kept[k].meta == refs[at[k]].meta
            && kept[k].fullPath == ReaderPath(c.files, c.paths, refs[at[k]].fileId))
  {
    hide Gather, ReaderPath;
    var f := KeptIf(c, name, keep);
    KeptGathers(c, name, refs, keep);
    at := GatherPicks(f, refs);
    forall j: nat
      ensures j in at <==> j < |refs| && refs[j].fileId < |c.files| && keep(name, refs[j].meta)
    {
      assert j in at <==> Yields(f, refs, j);
    }
    forall k | 0 <= k < |at|
      ensures at[k] < |refs| && refs[at[k]].fileId < |c.files|
      ensures Kept(c, name, refs, keep)[k]
        == FileReference(ReaderPath(c.files, c.paths, refs[at[k]].fileId), refs[at[k]].meta)
    {
      assert at[k] in at;
      assert YieldsJust(f, refs, at[k], Kept(c, name, refs, keep)[k]);
    }
  }

  /** A candidate holds every trigram of the query. */
  ghost predicate HoldsAll(name: Text, query: Text) {
    Codes(query) <= Codes(name)
  }

  /** ids lists the candidates, each once, in any order. */
  ghost predicate Candidates(ids: seq<nat>, names: seq<Text>, query: Text) {
    && (forall i, j | 0 <= i < j < |ids| :: ids[i] != ids[j])
    && forall i: nat :: i in ids <==> i < |names| && HoldsAll(names[i], query)
  }

  /** The answer for symbol id: its name and its filtered references. */
  ghost predicate AnswerIs(r: LookupResult, id: nat, c: Content, keep: (Text, Meta) -> bool)
    requires Valid(c.table)
  {
    id < |c.table.keys| && var name := c.table.keys[id]; 
    r == LookupResult(name, Kept(c, name, c.table.refs[name], keep))
  }

  ghost predicate AnswersFor(results: seq<LookupResult>, ids: seq<nat>, c: Content, keep: (Text, Meta) -> bool)
    requires Valid(c.table)
  {
    |results| == |ids| && forall k | 0 <= k < |ids| :: AnswerIs(results[k], ids[k], c, keep)
  }

  lemma AnswersSnoc(results: seq<LookupResult>, ids: seq<nat>, k: nat, r: LookupResult, c: Content,
                    keep: (Text, Meta) -> bool)
    requires Valid(c.table) && k < |ids| && AnswersFor(results, ids[..k], c, keep) && AnswerIs(r, ids[k], c, keep)
    ensures AnswersFor(results + [r], ids[..k + 1], c, keep)
  {
    TakeSnoc(ids, k);
  }

  // ---- Counting posting hits ----------------------------------------------------------------------

  /** How many of the first n codes are in a name's code set. */
  ghost function Hits(held: set<nat>, codes: seq<nat>, n: nat): nat
    requires n <= |codes|
  {
    if n == 0 then 0 else Hits(held, codes, n - 1) + if codes[n - 1] in held then 1 else 0
  }

  lemma {:induction false} FullHits(held: set<nat>, codes: seq<nat>, n: nat)
    requires n <= |codes|
    ensures Hits(held, codes, n) <= n
    ensures Hits(held, codes, n) == n <==> forall k | 0 <= k < n :: codes[k] in held
  {
    if n > 0 {
      FullHits(held, codes, n - 1);
    }
  }

  /** counts holds, for every id, how many of the first n codes its name holds. */
  ghost predicate Counted(counts: map<nat, nat>, names: seq<Text>, codes: seq<nat>, n: nat)
    requires n <= |codes|
  {
    && (forall id: nat :: id in counts <==> id < |names| && Hits(Codes(names[id]), codes, n) > 0)
    && (forall id: nat :: id in counts ==> counts[id] == Hits(Codes(names[id]), codes, n))
  }

  /** counts' is counts with one added for every id in list. */
  ghost predicate Bumped(counts: map<nat, nat>, counts': map<nat, nat>, list: seq<nat>) {
    && (forall id: nat :: id in counts' <==> id in counts || id in list)
    && (forall id: nat :: id in counts' ==>
          counts'[id] == (if id in counts then counts[id] else 0) + if id in list then 1 else 0)
  }

  method Bump(counts: map<nat, nat>, list: seq<nat>) returns (r: map<nat, nat>)
    requires Increasing(list)
    ensures Bumped(counts, r, list)
  {
    r := counts;
    for k := 0 to |list|
      invariant Bumped(counts, r, list[..k])
    {
      TakeSnoc(list, k);
      r := r[list[k] := (if list[k] in r then r[list[k]] else 0) + 1];
    }
    TakeAll(list);
  }

  lemma CountOneCode(counts: map<nat, nat>, counts': map<nat, nat>, names: seq<Text>, codes: seq<nat>, n: nat)
    requires n < |codes| && Counted(counts, names, codes, n) && Bumped(counts, counts', Postings(names, codes[n]))
    ensures Counted(counts', names, codes, n + 1)
  {
    forall id: nat
      ensures id in counts' <==> id < |names| && Hits(Codes(names[id]), codes, n + 1) > 0
      ensures id in counts' ==> counts'[id] == Hits(Codes(names[id]), codes, n + 1)
    {
      PostingsAreTheHolders(names, codes[n], id);
    }
  }

  /** Keeps the ids that were hit by every code, in the arbitrary order of the hash map. */
  method FullMatches(counts: map<nat, nat>, target: nat) returns (ids: seq<nat>)
    ensures forall i, j | 0 <= i < j < |ids| :: ids[i] != ids[j]
    ensures forall id :: id in ids <==> id in counts && counts[id] == target
  {
    ids := [];
    var todo := counts.Keys;
    while todo != {}
      invariant todo <= counts.Keys
      invariant forall i, j | 0 <= i < j < |ids| :: ids[i] != ids[j]
      invariant forall id :: id in ids <==> id in counts && id !in todo && counts[id] == target
    {
      var id: nat :| id in todo;
      if counts[id] == target {
        ids := ids + [id];
      }
      todo := todo - {id};
    }
  }

  /** Counting is exact: an id is hit as often as there are query codes if and only if its name holds
      them all. */
  lemma CountingIsExact(counts: map<nat, nat>, names: seq<Text>, query: Text, codes: seq<nat>, ids: seq<nat>)
    requires codes != [] && SameCodes(codes, query)
    requires Counted(counts, names, codes, |codes|)
    requires forall i, j | 0 <= i < j < |ids| :: ids[i] != ids[j]
    requires forall id :: id in ids <==> id in counts && counts[id] == |codes|
    ensures Candidates(ids, names, query)
  {
    forall i: nat ensures i in ids <==> i < |names| && HoldsAll(names[i], query) {
      if i < |names| {
        FullHits(Codes(names[i]), codes, |codes|);
        HoldsAllByCodes(names[i], query, codes);
      }
    }
  }

  lemma HoldsAllInSequence(name: Text, query: Text)
    ensures HoldsAll(name, query) <==> forall x :: x in TrigramSeq(query) ==> x in TrigramSeq(name)
  {
    hide TrigramSeq;
    assert forall x :: x in Codes(query) <==> x in TrigramSeq(query);
    assert forall x :: x in Codes(name) <==> x in TrigramSeq(name);
  }

  lemma HoldsAllByCodes(name: Text, query: Text, codes: seq<nat>)
    requires SameCodes(codes, query)
    ensures HoldsAll(name, query) <==> forall k | 0 <= k < |codes| :: codes[k] in Codes(name)
  {
    if HoldsAll(name, query) {
      forall k | 0 <= k < |codes| ensures codes[k] in Codes(name) {
        assert codes[k] in Codes(query);
      }
    }
  }

  ghost predicate Decompresses(file: Text, z: Codec)
    requires Readable(file) && Recognised(HeaderOf(file))
  {
    && Unpacked(file, z, FILE_INDEX).Some? && Unpacked(file, z, FILE_NAMES).Some?
    && Unpacked(file, z, PATH_INDEX).Some? && Unpacked(file, z, PATH_NAMES).Some?
    && Unpacked(file, z, SYMBOL_INDEX).Some? && Unpacked(file, z, SYMBOL_NAMES).Some?
    && Unpacked(file, z, SYMBOL_METADATA).Some?
    && Unpacked(file, z, TRIGRAM_SLOTS).Some? && Unpacked(file, z, TRIGRAM_POSTINGS).Some?
  }

  ghost function PlainOf(file: Text, z: Codec): (r: seq<Text>)
    requires Readable(file) && Recognised(HeaderOf(file)) && Decompresses(file, z)
    ensures |r| == BLOCKS
  {
    [Unpacked(file, z, FILE_INDEX).value, Unpacked(file, z, FILE_NAMES).value,
     Unpacked(file, z, PATH_INDEX).value, Unpacked(file, z, PATH_NAMES).value,
     Unpacked(file, z, SYMBOL_INDEX).value, Unpacked(file, z, SYMBOL_NAMES).value,
     Unpacked(file, z, SYMBOL_METADATA).value,
     Unpacked(file, z, TRIGRAM_SLOTS).value, Unpacked(file, z, TRIGRAM_POSTINGS).value]
  }

  // ---- The reader ---------------------------------------------------------------------------------

  class DatabaseReader {
    const file: Text
    var header: H.Header
    var fileTable: Text
    var fileNames: Text
    var pathTable: Text
    var pathNames: Text
    var symbolIndex: Text
    var symbolNames: Text
    var symbolMetadata: Text
    var slots: Text
    var postings: Text
    var filesCount: nat
    var pathsCount: nat
    var symbolsCount: nat
    var capacity: nat

    constructor (bytes: Text)
      ensures file == bytes
    {
      file := bytes;
      header := BLANK_HEADER;
      fileTable, fileNames, pathTable, pathNames := [], [], [], [];
      symbolIndex, symbolNames, symbolMetadata, slots, postings := [], [], [], [], [];
      filesCount, pathsCount, symbolsCount, capacity := 0, 0, 0, 0;
    }

    function Buffers(): (r: seq<Text>)
      reads this
      ensures |r| == BLOCKS
    {
      [fileTable, fileNames, pathTable, pathNames, symbolIndex, symbolNames, symbolMetadata, slots, postings]
    }

    /** The header is decoded and every block it names lies inside the file. */
    ghost predicate Ready()
      reads this
    {
      && Readable(file) && header == HeaderOf(file) && Recognised(header)
    }

    method ReadHeader() returns (ok: bool)
      requires Readable(file)
      modifies this`header
      ensures header == HeaderOf(file) && ok == Recognised(header)
      ensures ok <==> header.magic == 0x7379_6D66_696E_6400 && header.version == 0x100
    {
      header := H.DecodeHeader(file[..H.HEADER_SIZE]);
      if header.magic != H.MAGIC {
        return false;
      }
      return header.version == H.VERSION;
    }

    method ReadFileTable(z: Codec) returns (ok: bool)
      requires Ready()
      modifies this`fileTable, this`fileNames, this`filesCount
      ensures ok == (Unpacked(file, z, FILE_INDEX).Some? && Unpacked(file, z, FILE_NAMES).Some?)
      ensures ok ==> Some(fileTable) == Unpacked(file, z, FILE_INDEX)
      ensures ok ==> Some(fileNames) == Unpacked(file, z, FILE_NAMES)
      ensures ok ==> filesCount == |fileTable| / FILE_SIZE
    {
      var r := ReadBlock(z, FILE_INDEX, header.files.index);
      if r.None? {
        return false;
      }
      fileTable := r.value;
      filesCount := |fileTable| / FILE_SIZE;
      r := ReadBlock(z, FILE_NAMES, header.files.names);
      if r.None? {
        return false;
      }
      fileNames := r.value;
      return true;
    }

    method ReadPathTable(z: Codec) returns (ok: bool)
      requires Ready()
      modifies this`pathTable, this`pathNames, this`pathsCount
      ensures ok == (Unpacked(file, z, PATH_INDEX).Some? && Unpacked(file, z, PATH_NAMES).Some?)
      ensures ok ==> Some(pathTable) == Unpacked(file, z, PATH_INDEX)
      ensures ok ==> Some(pathNames) == Unpacked(file, z, PATH_NAMES)
      ensures ok ==> pathsCount == |pathTable| / PATH_SIZE
    {
      var r := ReadBlock(z, PATH_INDEX, header.paths.index);
      if r.None? {
        return false;
      }
      pathTable := r.value;
      pathsCount := |pathTable| / PATH_SIZE;
      r := ReadBlock(z, PATH_NAMES, header.paths.names);
      if r.None? {
        return false;
      }
      pathNames := r.value;
      return true;
    }

    method ReadSymbolIndex(z: Codec) returns (ok: bool)
      requires Ready()
      modifies this`symbolIndex, this`symbolNames, this`symbolMetadata, this`symbolsCount
      ensures ok == (Unpacked(file, z, SYMBOL_INDEX).Some? && Unpacked(file, z, SYMBOL_NAMES).Some?
                     && Unpacked(file, z, SYMBOL_METADATA).Some?)
      ensures ok ==> Some(symbolIndex) == Unpacked(file, z, SYMBOL_INDEX)
      ensures ok ==> Some(symbolNames) == Unpacked(file, z, SYMBOL_NAMES)
      ensures ok ==> Some(symbolMetadata) == Unpacked(file, z, SYMBOL_METADATA)
      ensures ok ==> symbolsCount == |symbolIndex| / SYMBOL_SIZE
    {
      var r := ReadBlock(z, SYMBOL_INDEX, header.symbols.index);
      if r.None? {
        return false;
      }
      symbolIndex := r.value;
      symbolsCount := |symbolIndex| / SYMBOL_SIZE;
      r := ReadBlock(z, SYMBOL_NAMES, header.symbols.names);
      if r.None? {
        return false;
      }
      symbolNames := r.value;
      r := ReadBlock(z, SYMBOL_METADATA, header.symbols.metadata);
      if r.None? {
        return false;
      }
      symbolMetadata := r.value;
      return true;
    }

    method ReadTrigramIndex(z: Codec) returns (ok: bool)
      requires Ready()
      modifies this`slots, this`postings, this`capacity
      ensures ok == (Unpacked(file, z, TRIGRAM_SLOTS).Some? && Unpacked(file, z, TRIGRAM_POSTINGS).Some?)
      ensures ok ==> Some(slots) == Unpacked(file, z, TRIGRAM_SLOTS)
      ensures ok ==> Some(postings) == Unpacked(file, z, TRIGRAM_POSTINGS)
      ensures ok ==> capacity == header.trigrams.capacity % U32
    {
      var r := ReadBlock(z, TRIGRAM_SLOTS, header.trigrams.index);
      if r.None? {
        return false;
      }
      slots := r.value;
      capacity := header.trigrams.capacity % U32;
      r := ReadBlock(z, TRIGRAM_POSTINGS, header.trigrams.postings);
      if r.None? {
        return false;
      }
      postings := r.value;
      return true;
    }

    /** Cuts block i out of the file and decompresses it, with the dictionary if it is a name blob. */
    method ReadBlock(z: Codec, i: nat, s: H.Stored) returns (r: Option<Text>)
      requires Ready() && i < BLOCKS && s == StoredBlocks(header)[i]
      ensures r == Unpacked(file, z, i)
    {
      var dict := DictFor(file[header.dictOffset..header.dictOffset + header.dictLength], i);
      r := z.decompress(dict, file[s.offset..s.offset + s.length], s.uncompressed);
    }

    /** Loads everything.  It fails exactly on a foreign header or a block that does not decompress. */
    method DecompressDatabase(z: Codec) returns (ok: bool)
      requires Readable(file)
      modifies this
      ensures ok == (Recognised(HeaderOf(file)) && Decompresses(file, z))
      ensures ok ==> header == HeaderOf(file) && Buffers() == PlainOf(file, z)
      ensures ok ==> filesCount == |fileTable| / FILE_SIZE && pathsCount == |pathTable| / PATH_SIZE
      ensures ok ==> symbolsCount == |symbolIndex| / SYMBOL_SIZE && capacity == header.trigrams.capacity % U32
    {
      hide Unpacked, HeaderOf;
      ok := ReadHeader();
      if !ok {
        return;
      }
      ok := ReadFileTable(z);
      if !ok {
        return;
      }
      ok := ReadPathTable(z);
      if !ok {
        return;
      }
      ok := ReadSymbolIndex(z);
      if !ok {
        return;
      }
      ok := ReadTrigramIndex(z);
    }

    /** The loaded file, path and symbol blocks are those of the content c. */
    ghost predicate ShowsTables(c: Content)
      reads this
    {
      && Valid(c.table) && FilesFit(c.files) && PathsFit(c.paths) && SymbolsFit(c.table)
      && fileTable == Flatten(FileRows(c.files)) && fileNames == Flatten(FileNames(c.files)) && filesCount == |c.files|
      && pathTable == Flatten(PathRows(c.paths)) && pathNames == Flatten(c.paths) && pathsCount == |c.paths|
      && symbolIndex == Flatten(SymbolRows(c.table)) && symbolNames == Flatten(c.table.keys)
      && symbolMetadata == Flatten(MetadataRows(c.table)) && symbolsCount == |c.table.keys|
    }

    /** The loaded trigram blocks are those of a table for the names. */
    ghost predicate ShowsTrigrams(names: seq<Text>, tt: TrigramTable)
      reads this
    {
      && TrigramsFor(tt, names) && |names| < U32 && 4 * |tt.postings| < U32
      && slots == Flatten(SlotRows(tt.slots)) && postings == Flatten(PostingRows(tt.postings)) && capacity == |tt.slots|
    }

    ghost predicate Shows(c: Content, tt: TrigramTable)
      reads this
    {
      ShowsTables(c) && ShowsTrigrams(c.table.keys, tt)
    }

    /** The posting list of a code, found by linear probing.  It is the increasing list of the ids whose
        names hold the code, and empty for a code that occurs nowhere. */
    method LookupTrigram(code: nat, ghost names: seq<Text>, ghost tt: TrigramTable) returns (ids: seq<nat>)
      requires ShowsTrigrams(names, tt) && code < U32
      ensures ids == Postings(names, code)
    {
      if capacity == 0 {
        Pow2Values();
        return [];
      }
      TrailingZerosOfPow2(tt.bits);
      AllSlotsSeen(names, tt);
      var hit, slot, k := ProbeSlots(slots, capacity, HomeSlot(code, TrailingZeros(capacity)), code, tt.slots);
      LookupIsExact(tt, names, code, hit, slot, k);
      if !hit {
        return [];
      }
      SpanIsList(names, tt.codes, tt.postings, slot);
      return Span(postings, slot.postingOffset, slot.postingCount);
    }

    /** Resolves the references of one symbol and keeps those the filter lets through. */
    method ResolveRefs(name: Text, blob: Text, keep: (Text, Meta) -> bool, ghost c: Content, ghost refs: seq<Ref>)
      returns (kept: seq<FileReference>)
      requires ShowsTables(c) && blob == Flatten(RefRows(refs)) && RefsFit(refs)
      ensures kept == Kept(c, name, refs, keep)
    {
      hide Flatten, Pack, Unpack, Sum, Kept, ReaderPath;
      KeptNothing(c, name, keep);
      RecordSizes();
      kept := [];
      WideLength(RefRows(refs), REF_SIZE);
      for i := 0 to |blob| / REF_SIZE
        invariant kept == Kept(c, name, refs[..i], keep)
      {
        RefRoundTrip(refs, i);
        KeptSnoc(c, name, refs, i, keep);
        var ref := RefOf(Record(blob, REF_WIDTHS, REF_SIZE, i));
        if ref.fileId >= filesCount {
          continue;
        }
        if !keep(name, ref.meta) {
          continue;
        }
        var path := PathOfFile(fileTable, fileNames, pathTable, pathNames, pathsCount, ref.fileId, c.files, c.paths);
        kept := kept + [FileReference(path, ref.meta)];
      }
      TakeAll(refs);
    }

    /** Resolves one candidate. */
    method ResolveSymbol(id: nat, keep: (Text, Meta) -> bool, ghost c: Content) returns (r: LookupResult)
      requires ShowsTables(c) && id < |c.table.keys|
      ensures AnswerIs(r, id, c, keep)
    {
      hide Flatten, Pack, Unpack, Kept;
      ghost var refs := c.table.refs[c.table.keys[id]];
      RefsOfKeyFit(c.table, id);
      SymbolSeen(c.table, id, symbolIndex, symbolNames, symbolMetadata);
      var entry := Record(symbolIndex, SYMBOL_WIDTHS, SYMBOL_SIZE, id);
      var name, blob := symbolNames[entry[0]..entry[0] + entry[1]], symbolMetadata[entry[2]..entry[2] + entry[3]];
      var kept := ResolveRefs(name, blob, keep, c, refs);
      r := LookupResult(name, kept);
    }

    /** Answers a query: intersects the posting lists by counting, then resolves every candidate. */
    method FindSymbolReferences(query: Text, keep: (Text, Meta) -> bool, ghost c: Content, ghost tt: TrigramTable)
      returns (r: Option<seq<LookupResult>>, ghost ids: seq<nat>)
      requires Shows(c, tt)
      ensures r.Some? ==> query != [] && r.value != []
      ensures r.Some? ==> Candidates(ids, c.table.keys, query) && AnswersFor(r.value, ids, c, keep)
      ensures r.Some? ==> |r.value| == |ids| && forall k | 0 <= k < |ids| ::
        ids[k] < |c.table.keys| && r.value[k].name == c.table.keys[ids[k]]
      ensures r.None? ==> query == [] || forall i | 0 <= i < |c.table.keys| :: !HoldsAll(c.table.keys[i], query)
    {
      hide Candidates, HoldsAll, AnswersFor, TrigramSeq, SameCodes;
      ids := [];
      var codes := QueryCodes(query);
      if codes == [] {
        return None, ids;
      }
      var candidates := CandidateIds(query, codes, c.table.keys, tt);
      ids := candidates;
      if candidates == [] {
        NoCandidate(c.table.keys, query);
        return None, ids;
      }
      CandidatesInRange(candidates, c.table.keys, query);
      var results := ResolveAll(candidates, keep, c);
      AnswersAreNamed(results, ids, c, keep);
      r := Some(results);
    }

    /** The ids whose names hold every trigram of the query. */
    method CandidateIds(query: Text, codes: seq<nat>, ghost names: seq<Text>, ghost tt: TrigramTable)
      returns (ids: seq<nat>)
      requires ShowsTrigrams(names, tt) && codes != [] && SameCodes(codes, query)
      ensures Candidates(ids, names, query)
      ensures forall i: nat :: i in ids <==>
        i < |names| && forall x :: x in TrigramSeq(query) ==> x in TrigramSeq(names[i])
    {
      CodesAreSmall(query, codes);
      var counts := CountHits(codes, names, tt);
      ids := FullMatches(counts, |codes|);
      CountingIsExact(counts, names, query, codes, ids);
      forall i: nat | i < |names|
        ensures HoldsAll(names[i], query) <==> forall x :: x in TrigramSeq(query) ==> x in TrigramSeq(names[i])
      {
        HoldsAllInSequence(names[i], query);
      }
    }

    method CountHits(codes: seq<nat>, ghost names: seq<Text>, ghost tt: TrigramTable) returns (counts: map<nat, nat>)
      requires ShowsTrigrams(names, tt) && forall k | 0 <= k < |codes| :: codes[k] < U32
      ensures Counted(counts, names, codes, |codes|)
    {
      counts := map[];
      for k := 0 to |codes|
        invariant Counted(counts, names, codes, k)
      {
        var list := LookupTrigram(codes[k], names, tt);
        var bumped := Bump(counts, list);
        CountOneCode(counts, bumped, names, codes, k);
        counts := bumped;
      }
    }

    method ResolveAll(ids: seq<nat>, keep: (Text, Meta) -> bool, ghost c: Content) returns (results: seq<LookupResult>)
      requires ShowsTables(c) && forall k | 0 <= k < |ids| :: ids[k] < |c.table.keys|
      ensures AnswersFor(results, ids, c, keep)
    {
      results := [];
      for k := 0 to |ids|
        invariant AnswersFor(results, ids[..k], c, keep)
      {
        if ids[k] >= symbolsCount {
          assert false;
        }
        var r := ResolveSymbol(ids[k], keep, c);
        AnswersSnoc(results, ids, k, r, c, keep);
        results := results + [r];
      }
      TakeAll(ids);
    }
  }

  lemma SymbolSeen(t: Table, id: nat, index: Text, names: Text, metadata: Text)
    requires Valid(t) && SymbolsFit(t) && id < |t.keys|
    requires index == Flatten(SymbolRows(t)) && names == Flatten(t.keys) && metadata == Flatten(MetadataRows(t))
    ensures id * SYMBOL_SIZE + SYMBOL_SIZE <= |index| && var vs := Record(index, SYMBOL_WIDTHS, SYMBOL_SIZE, id);
      && vs[0] + vs[1] <= |names| && names[vs[0]..vs[0] + vs[1]] == t.keys[id]
      && vs[2] + vs[3] <= |metadata| && metadata[vs[2]..vs[2] + vs[3]] == Flatten(RefRows(t.refs[t.keys[id]]))
  {
    hide Flatten, Pack, Unpack, Offset, Sum, Record;
    SymbolRoundTrip(t, id);
  }

  lemma NoCandidate(names: seq<Text>, query: Text)
    requires Candidates([], names, query)
    ensures forall i | 0 <= i < |names| :: !HoldsAll(names[i], query)
  {
    hide HoldsAll;
    forall i | 0 <= i < |names| ensures !HoldsAll(names[i], query) {
      var none: seq<nat> := [];
      assert i !in none;
    }
  }

  lemma AnswersAreNamed(results: seq<LookupResult>, ids: seq<nat>, c: Content, keep: (Text, Meta) -> bool)
    requires Valid(c.table) && AnswersFor(results, ids, c, keep)
    ensures |results| == |ids|
    ensures forall k | 0 <= k < |ids| :: ids[k] < |c.table.keys| && results[k].name == c.table.keys[ids[k]]
  {
    hide Kept;
    forall k | 0 <= k < |ids| ensures ids[k] < |c.table.keys| && results[k].name == c.table.keys[ids[k]] {
      assert AnswerIs(results[k], ids[k], c, keep);
    }
  }

  lemma CandidatesInRange(ids: seq<nat>, names: seq<Text>, query: Text)
    requires Candidates(ids, names, query)
    ensures forall k | 0 <= k < |ids| :: ids[k] < |names|
  {
    forall k | 0 <= k < |ids| ensures ids[k] < |names| { assert ids[k] in ids; }
  }

  ghost predicate SameCodes(codes: seq<nat>, query: Text) {
    forall x :: x in codes <==> x in TrigramSeq(query)
  }

  method QueryCodes(query: Text) returns (codes: seq<nat>)
    ensures SameCodes(codes, query) && (codes == [] <==> query == [])
  {
    var raw := ForEachTrigram(query);
    codes := SortUnique(raw);
    if query != [] {
      assert raw[0] in codes;
    }
    if codes != [] {
      assert codes[0] in raw;
    }
  }

  lemma CodesAreSmall(query: Text, codes: seq<nat>)
    requires SameCodes(codes, query)
    ensures forall k | 0 <= k < |codes| :: codes[k] < CODE_LIMIT
  {
    forall k | 0 <= k < |codes| ensures codes[k] < CODE_LIMIT {
      assert codes[k] in TrigramSeq(query);
    }
  }

  /** Puts the full path of a file together from the file and path blocks. */
  method PathOfFile(fileTable: Text, fileNames: Text, pathTable: Text, pathNames: Text, pathsCount: nat, file: nat,
                    ghost files: seq<FileInfo>, ghost paths: seq<Text>) returns (path: Text)
    requires FilesFit(files) && PathsFit(paths) && file < |files| && pathsCount == |paths|
    requires fileTable == Flatten(FileRows(files)) && fileNames == Flatten(FileNames(files))
    requires pathTable == Flatten(PathRows(paths)) && pathNames == Flatten(paths)
    ensures path == ReaderPath(files, paths, file)
  {
    hide Flatten, Pack, Unpack, Offset, Sum, Slashed;
    RecordSizes();
    FileRoundTrip(files, file);
    var entry := Record(fileTable, FILE_WIDTHS, FILE_SIZE, file);
    var name := fileNames[entry[1]..entry[1] + entry[2]];
    path := [];
    if entry[0] < pathsCount {
      path := Directory(pathTable, pathNames, entry[0], paths);
    }
    path := path + name;
  }

  method Directory(pathTable: Text, pathNames: Text, id: nat, ghost paths: seq<Text>) returns (path: Text)
    requires PathsFit(paths) && id < |paths| && pathTable == Flatten(PathRows(paths)) && pathNames == Flatten(paths)
    ensures path == Slashed(paths[id])
  {
    hide Flatten, Pack, Unpack, Offset, Sum;
    RecordSizes();
    PathRoundTrip(paths, id);
    var entry := Record(pathTable, PATH_WIDTHS, PATH_SIZE, id);
    path := pathNames[entry[0]..entry[0] + entry[1]];
    if path != [] && path[|path| - 1] != SLASH {
      path := path + [SLASH];
    }
  }

  /** The probe loop over the raw slot block: stops at the code or at the first free slot. */
  method ProbeSlots(buf: Text, capacity: nat, home: nat, code: nat, ghost table: seq<Slot>)
    returns (hit: bool, slot: Slot, ghost k: nat)
    requires home < capacity == |table| && |UsedSlots(table)| < |table|
    requires forall idx | 0 <= idx < |table| :: ShowsSlot(buf, table, idx)
    ensures slot in table
    ensures hit ==> slot.code == code && code != EMPTY_SLOT
    ensures !hit ==> table[Probe(home, capacity, k)].code == EMPTY_SLOT
    ensures forall j | 0 <= j < k :: table[Probe(home, capacity, j)].code != code
  {
    ghost var free := FreeSlotExists(table);
    ghost var d := ProbeReaches(home, capacity, free);
    var idx := home;
    k := 0;
    while true
      invariant idx == Probe(home, capacity, k) && k <= d
      invariant forall j | 0 <= j < k :: table[Probe(home, capacity, j)].code != EMPTY_SLOT
      invariant forall j | 0 <= j < k :: table[Probe(home, capacity, j)].code != code
      decreases d - k
    {
      assert ShowsSlot(buf, table, idx);
      slot := SlotOf(Record(buf, SLOT_WIDTHS, SLOT_SIZE, idx));
      if slot.code == EMPTY_SLOT {
        return false, slot, k;
      }
      if slot.code == code {
        return true, slot, k;
      }
      idx, k := NextSlot(idx, capacity), k + 1;
    }
  }

  ghost predicate ShowsSlot(buf: Text, table: seq<Slot>, idx: nat)
    requires idx < |table|
  {
    idx * SLOT_SIZE + SLOT_SIZE <= |buf| && SlotOf(Record(buf, SLOT_WIDTHS, SLOT_SIZE, idx)) == table[idx]
  }

  // ---- Reading the trigram blocks -------------------------------------------------------------------

  /** A stretch of the posting array. */
  function Span(buf: Text, offset: nat, count: nat): (r: seq<nat>)
    requires (offset + count) * 4 <= |buf|
    ensures |r| == count && forall k | 0 <= k < count :: r[k] == PostingAt(buf, offset + k)
  {
    seq<nat>(count, k requires 0 <= k < count => PostingAt(buf, offset + k))
  }

  lemma SlotSeen(names: seq<Text>, tt: TrigramTable, idx: nat)
    requires TrigramsFor(tt, names) && 4 * |tt.postings| < U32 && idx < |tt.slots|
    ensures var buf := Flatten(SlotRows(tt.slots));
      idx * SLOT_SIZE + SLOT_SIZE <= |buf| && SlotOf(Record(buf, SLOT_WIDTHS, SLOT_SIZE, idx)) == tt.slots[idx]
  {
    CollectedCodesAreSmall(tt.codes, names);
    assert TrueSlot(tt.slots[idx], tt.postings, tt.codes);
    SlotRoundTrip(tt.slots, idx);
  }

  lemma SpanIsList(names: seq<Text>, codes: map<nat, seq<nat>>, postings: seq<nat>, s: Slot)
    requires Collected(codes, names) && |names| < U32 && SlotHolds(s, postings, codes)
    ensures var buf := Flatten(PostingRows(postings));
      && (s.postingOffset + s.postingCount) * 4 <= |buf|
      && Span(buf, s.postingOffset, s.postingCount) == Postings(names, s.code)
  {
    hide Flatten, Postings, LE;
    var list := Postings(names, s.code);
    WideLength(PostingRows(postings), 4);
    assert postings[s.postingOffset..s.postingOffset + s.postingCount] == list;
    forall k | 0 <= k < |list| ensures list[k] < U32 { assert list[k] < |names|; }
    SpanOfPostings(postings, s.postingOffset, list);
  }

  lemma SpanOfPostings(postings: seq<nat>, offset: nat, list: seq<nat>)
    requires offset + |list| <= |postings| && postings[offset..offset + |list|] == list
    requires forall k | 0 <= k < |list| :: list[k] < U32
    requires (offset + |list|) * 4 <= |Flatten(PostingRows(postings))|
    ensures Span(Flatten(PostingRows(postings)), offset, |list|) == list
  {
    var buf := Flatten(PostingRows(postings));
    forall k | 0 <= k < |list| ensures PostingAt(buf, offset + k) == list[k] {
      assert postings[offset..offset + |list|][k] == postings[offset + k];
      PostingRoundTrip(postings, offset + k);
    }
  }

  lemma AllSlotsSeen(names: seq<Text>, tt: TrigramTable)
    requires TrigramsFor(tt, names) && 4 * |tt.postings| < U32
    ensures forall idx | 0 <= idx < |tt.slots| :: ShowsSlot(Flatten(SlotRows(tt.slots)), tt.slots, idx)
  {
    forall idx | 0 <= idx < |tt.slots| ensures ShowsSlot(Flatten(SlotRows(tt.slots)), tt.slots, idx) {
      SlotSeen(names, tt, idx);
    }
  }

  lemma LookupIsExact(tt: TrigramTable, names: seq<Text>, code: nat, hit: bool, slot: Slot, k: nat)
    requires TrigramsFor(tt, names) && slot in tt.slots && (hit ==> slot.code == code && code != EMPTY_SLOT)
    requires !hit ==> tt.slots[Probe(HomeSlot(code, tt.bits), |tt.slots|, k)].code == EMPTY_SLOT
    requires forall j | 0 <= j < k :: tt.slots[Probe(HomeSlot(code, tt.bits), |tt.slots|, j)].code != code
    ensures if hit then SlotHolds(slot, tt.postings, tt.codes) else Postings(names, code) == []
  {
    if hit {
      var i :| 0 <= i < |tt.slots| && tt.slots[i] == slot;
      assert TrueSlot(tt.slots[i], tt.postings, tt.codes);
    } else {
      AbsentCode(tt, names, HomeSlot(code, tt.bits), code, k);
    }
  }

  lemma AbsentCode(tt: TrigramTable, names: seq<Text>, home: nat, code: nat, k: nat)
    requires TrigramsFor(tt, names) && home == HomeSlot(code, tt.bits) < |tt.slots|
    requires tt.slots[Probe(home, |tt.slots|, k)].code == EMPTY_SLOT
    requires forall j | 0 <= j < k :: tt.slots[Probe(home, |tt.slots|, j)].code != code
    ensures Postings(names, code) == []
  {
    CollectedCodesAreSmall(tt.codes, names);
    if code in tt.codes {
      assert Found(tt.slots, HomeOf(tt.bits)(code), code);
      NotFoundBeforeFree(tt.slots, home, code, k);
    }
  }
}
