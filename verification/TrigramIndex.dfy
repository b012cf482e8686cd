/** From symbol names to posting lists and on to the open-addressed trigram table. */
module TrigramIndex {
  import opened Bytes
  import opened Sequences
  import opened FiniteSets
  import opened Packing
  import opened Trigrams
  import opened OpenAddressing

  // ---- Posting lists ----------------------------------------------------------------------------

  predicate Holds(word: Text, c: nat) {
    c in TrigramSeq(word)
  }

  /** The ids of the names holding a code, in increasing order. */
  function Postings(names: seq<Text>, c: nat): (r: seq<nat>)
    ensures Increasing(r) && forall k | 0 <= k < |r| :: r[k] < |names|
  {
    if names == [] then []
    else
      var last := |names| - 1;
      var r := Postings(names[..last], c);
      if Holds(names[last], c) then r + [last] else r
  }

  lemma {:induction false} PostingsAreTheHolders(names: seq<Text>, c: nat, i: nat)
    ensures i in Postings(names, c) <==> i < |names| && Holds(names[i], c)
  {
    hide Holds;
    if names != [] {
      var last := |names| - 1;
      var r := Postings(names[..last], c);
      PostingsAreTheHolders(names[..last], c, i);
      assert i in r + [last] <==> i in r || i == last;
      assert i < last ==> names[..last][i] == names[i];
    }
  }

  /** m holds the posting list of every code that occurs, and no other entry. */
  ghost predicate Collected(m: map<nat, seq<nat>>, names: seq<Text>) {
    && (forall c :: c in m <==> Postings(names, c) != [])
    && (forall c :: c in m ==> m[c] == Postings(names, c))
  }

  ghost predicate SmallCodes(m: map<nat, seq<nat>>) {
    forall c :: c in m ==> c < CODE_LIMIT
  }

  lemma CollectedCodesAreSmall(m: map<nat, seq<nat>>, names: seq<Text>)
    requires Collected(m, names)
    ensures SmallCodes(m)
  {
    forall c | c in m ensures c < CODE_LIMIT {
      var i := Postings(names, c)[0];
      PostingsAreTheHolders(names, c, i);
      var k :| 0 <= k < |TrigramSeq(names[i])| && TrigramSeq(names[i])[k] == c;
    }
  }

  lemma CollectOne(m: map<nat, seq<nat>>, m': map<nat, seq<nat>>, names: seq<Text>, word: Text)
    requires Collected(m, names) && Appended(m, m', Codes(word), |names|)
    ensures Collected(m', names + [word])
  {
    var names' := names + [word];
    assert names'[..|names|] == names;
    forall c
      ensures c in m' <==> Postings(names', c) != []
      ensures c in m' ==> m'[c] == Postings(names', c)
    {
      assert Postings(names', c) == if Holds(word, c) then Postings(names, c) + [|names|] else Postings(names, c);
      assert c in Codes(word) <==> Holds(word, c);
    }
  }

  /** m' is m with id appended to the list of every code in cs. */
  ghost predicate Appended(m: map<nat, seq<nat>>, m': map<nat, seq<nat>>, cs: set<nat>, id: nat) {
    && m'.Keys == m.Keys + cs
    && forall c :: c in m' ==> m'[c] == (if c in m then m[c] else []) + (if c in cs then [id] else [])
  }

  /** Pushing the id onto the list of one more code of an increasing sequence. */
  lemma AppendNext(m: map<nat, seq<nat>>, m': map<nat, seq<nat>>, codes: seq<nat>, i: nat, id: nat)
    requires Increasing(codes) && i < |codes| && Appended(m, m', Members(codes[..i]), id)
    ensures var list := if codes[i] in m' then m'[codes[i]] else [];
      Appended(m, m'[codes[i] := list + [id]], Members(codes[..i + 1]), id)
  {
    var before, c := Members(codes[..i]), codes[i];
    TakeSnoc(codes, i);
    assert c !in before;
    assert Members(codes[..i + 1]) == before + {c};
    AppendCode(m, m', before, c, id);
  }

  lemma AppendCode(m: map<nat, seq<nat>>, m': map<nat, seq<nat>>, cs: set<nat>, c: nat, id: nat)
    requires c !in cs && Appended(m, m', cs, id)
    ensures var list := if c in m' then m'[c] else [];
      Appended(m, m'[c := list + [id]], cs + {c}, id)
  {
  }

  class TrigramBuilder {
    var trigramToSymbols: map<nat, seq<nat>>
    var symbolCount: nat

    constructor ()
      ensures trigramToSymbols == map[] && symbolCount == 0
    {
      trigramToSymbols, symbolCount := map[], 0;
    }

    /** Registers a word under an id.  An empty word has no trigrams and is not counted. */
    method AddWord(word: Text, id: nat)
      modifies this
      ensures Appended(old(trigramToSymbols), trigramToSymbols, Codes(word), id)
      ensures symbolCount == old(symbolCount) + if word == [] then 0 else 1
    {
      if word == [] {
        return;
      }
      var scratch := ForEachTrigram(word);
      scratch := SortUnique(scratch);
      AddCodes(scratch, id);
      assert Members(scratch) == Codes(word);
      symbolCount := symbolCount + 1;
    }

    method AddCodes(scratch: seq<nat>, id: nat)
      requires Increasing(scratch)
      modifies this`trigramToSymbols
      ensures Appended(old(trigramToSymbols), trigramToSymbols, Members(scratch), id)
    {
      for i := 0 to |scratch|
        invariant Appended(old(trigramToSymbols), trigramToSymbols, Members(scratch[..i]), id)
      {
        var code := scratch[i];
        var list := if code in trigramToSymbols then trigramToSymbols[code] else [];
        AppendNext(old(trigramToSymbols), trigramToSymbols, scratch, i, id);
        trigramToSymbols := trigramToSymbols[code := list + [id]];
      }
      TakeAll(scratch);
    }
  }

  function NonEmptyCount(names: seq<Text>): (n: nat)
    ensures n <= |names|
  {
    if names == [] then 0
    else NonEmptyCount(names[..|names| - 1]) + if names[|names| - 1] == [] then 0 else 1
  }

  /** It is the number of names that have a byte. */
  lemma {:induction false} NonEmptyCountIs(names: seq<Text>)
    ensures NonEmptyCount(names) == |set i | 0 <= i < |names| && names[i] != []|
  {
    if names != [] {
      var n := |names| - 1;
      var rest := names[..n];
      NonEmptyCountIs(rest);
      var before, all := set i | 0 <= i < |rest| && rest[i] != [], set i | 0 <= i < |names| && names[i] != [];
      assert all == before + if names[n] == [] then {} else {n};
    }
  }

  lemma NonEmptyCountSnoc(names: seq<Text>, name: Text)
    ensures NonEmptyCount(names + [name]) == NonEmptyCount(names) + if name == [] then 0 else 1
  {
    assert (names + [name])[..|names|] == names;
  }

  /** Feeds the names in table order, numbering them from zero whether or not they are empty. */
  method CollectPostings(names: seq<Text>) returns (builder: TrigramBuilder)
    ensures fresh(builder) && Collected(builder.trigramToSymbols, names)
    ensures builder.symbolCount == NonEmptyCount(names)
  {
    builder := new TrigramBuilder();
    for i := 0 to |names|
      invariant fresh(builder) && Collected(builder.trigramToSymbols, names[..i])
      invariant builder.symbolCount == NonEmptyCount(names[..i])
    {
      TakeSnoc(names, i);
      ghost var m := builder.trigramToSymbols;
      builder.AddWord(names[i], i);
      NonEmptyCountSnoc(names[..i], names[i]);
      CollectOne(m, builder.trigramToSymbols, names[..i], names[i]);
    }
    assert names[..|names|] == names;
  }

  // ---- The table --------------------------------------------------------------------------------

  datatype TrigramEntry = TrigramEntry(code: nat, symbols: seq<nat>)

  /** The entries list the map, one entry per code, in some order. */
  ghost predicate Lists(entries: seq<TrigramEntry>, m: map<nat, seq<nat>>) {
    && |entries| == |m|
    && (forall i | 0 <= i < |entries| :: entries[i].code in m && m[entries[i].code] == entries[i].symbols)
    && (forall i, j | 0 <= i < j < |entries| :: entries[i].code != entries[j].code)
  }

  /** How many ids the first n entries list. */
  function PostingTotal(entries: seq<TrigramEntry>, n: nat): nat
    requires n <= |entries|
  {
    if n == 0 then 0 else PostingTotal(entries, n - 1) + |entries[n - 1].symbols|
  }

  lemma {:induction false} PostingTotalKept(entries: seq<TrigramEntry>, ent: TrigramEntry, n: nat)
    requires n <= |entries|
    ensures PostingTotal(entries + [ent], n) == PostingTotal(entries, n)
  {
    if n > 0 {
      PostingTotalKept(entries, ent, n - 1);
    }
  }

  /** Copies the map into a list, in whatever order the hash map yields it.  Sorting and erasing
      duplicates changes nothing, because ids were appended in increasing order. */
  method ListEntries(m: map<nat, seq<nat>>) returns (entries: seq<TrigramEntry>, total: nat)
    requires forall c :: c in m ==> Increasing(m[c])
    ensures Lists(entries, m) && total == PostingTotal(entries, |entries|)
  {
    hide Listed, Increasing, SortUnique;
    NothingListed(m);
    entries, total := [], 0;
    var todo := m.Keys;
    while todo != {}
      invariant Listed(entries, m, todo) && total == PostingTotal(entries, |entries|)
    {
      var code: nat :| code in todo;
      LeftIsThere(entries, m, todo, code);
      var syms := SortUnique(m[code]);
      IncreasingIsUnique(syms, m[code]);
      ListOneMore(entries, m, todo, code);
      PostingTotalKept(entries, TrigramEntry(code, syms), |entries|);
      total := total + |syms|;
      entries := entries + [TrigramEntry(code, syms)];
      todo := todo - {code};
    }
    EverythingListed(entries, m);
  }

  /** Part of the map is listed; the codes in todo are left. */
  ghost predicate Listed(entries: seq<TrigramEntry>, m: map<nat, seq<nat>>, todo: set<nat>) {
    && todo <= m.Keys && |entries| + |todo| == |m|
    && (forall i | 0 <= i < |entries| :: entries[i].code in m && m[entries[i].code] == entries[i].symbols)
    && (forall i | 0 <= i < |entries| :: entries[i].code !in todo)
    && (forall i, j | 0 <= i < j < |entries| :: entries[i].code != entries[j].code)
  }

  lemma NothingListed(m: map<nat, seq<nat>>)
    ensures Listed([], m, m.Keys)
  {
  }

  lemma LeftIsThere(entries: seq<TrigramEntry>, m: map<nat, seq<nat>>, todo: set<nat>, code: nat)
    requires Listed(entries, m, todo) && code in todo
    ensures code in m
  {
  }

  lemma EverythingListed(entries: seq<TrigramEntry>, m: map<nat, seq<nat>>)
    requires Listed(entries, m, {})
    ensures Lists(entries, m)
  {
  }

  lemma ListOneMore(entries: seq<TrigramEntry>, m: map<nat, seq<nat>>, todo: set<nat>, code: nat)
    requires Listed(entries, m, todo) && code in todo
    ensures Listed(entries + [TrigramEntry(code, m[code])], m, todo - {code})
  {
  }

  // ---- How many postings there are ----------------------------------------------------------------

  /** One posting for every name and every distinct code of it. */
  ghost function PostingCount(names: seq<Text>): nat {
    if names == [] then 0 else PostingCount(names[..|names| - 1]) + |Codes(names[|names| - 1])|
  }

  /** Which code stands in which of the first n names. */
  ghost function Incidence(names: seq<Text>, n: nat): set<(nat, nat)>
    requires n <= |names|
  {
    if n == 0 then {} else Incidence(names, n - 1) + PairsTo(Codes(names[n - 1]), n - 1)
  }

  lemma HoldsCode(word: Text, c: nat)
    ensures Holds(word, c) <==> c in Codes(word)
  {
  }

  lemma {:induction false} IncidenceMembers(names: seq<Text>, n: nat, c: nat, i: nat)
    requires n <= |names|
    ensures (c, i) in Incidence(names, n) <==> i < n && Holds(names[i], c)
  {
    hide Holds, Codes;
    if n > 0 {
      IncidenceMembers(names, n - 1, c, i);
      HoldsCode(names[n - 1], c);
      assert (c, i) in PairsTo(Codes(names[n - 1]), n - 1) <==> i == n - 1 && c in Codes(names[n - 1]);
    }
  }

  lemma {:induction false} IncidenceSize(names: seq<Text>, n: nat)
    requires n <= |names|
    ensures |Incidence(names, n)| == PostingCount(names[..n])
  {
    hide Codes;
    if n > 0 {
      var before, column := Incidence(names, n - 1), PairsTo(Codes(names[n - 1]), n - 1);
      IncidenceSize(names, n - 1);
      PairsToSize(Codes(names[n - 1]), n - 1);
      assert names[..n][..n - 1] == names[..n - 1];
      forall c: nat, i: nat | (c, i) in before ensures (c, i) !in column {
        IncidenceMembers(names, n - 1, c, i);
      }
      assert before !! column;
    }
  }

  /** What the first n entries list. */
  ghost function ListedPairs(entries: seq<TrigramEntry>, n: nat): set<(nat, nat)>
    requires n <= |entries|
  {
    if n == 0 then {} else ListedPairs(entries, n - 1) + PairsFrom(entries[n - 1].code, Members(entries[n - 1].symbols))
  }

  lemma {:induction false} ListedPairsMembers(entries: seq<TrigramEntry>, n: nat, c: nat, i: nat)
    requires n <= |entries|
    ensures (c, i) in ListedPairs(entries, n) <==>
      exists k :: 0 <= k < n && entries[k].code == c && i in entries[k].symbols
  {
    if n > 0 {
      var e := entries[n - 1];
      ListedPairsMembers(entries, n - 1, c, i);
      assert (c, i) in PairsFrom(e.code, Members(e.symbols)) <==> e.code == c && i in e.symbols;
    }
  }

  lemma {:induction false} ListedPairsSize(entries: seq<TrigramEntry>, n: nat)
    requires n <= |entries| && forall i, j | 0 <= i < j < |entries| :: entries[i].code != entries[j].code
    requires forall i | 0 <= i < |entries| :: Increasing(entries[i].symbols)
    ensures |ListedPairs(entries, n)| == PostingTotal(entries, n)
  {
    hide Members;
    if n > 0 {
      var e := entries[n - 1];
      var before, row := ListedPairs(entries, n - 1), PairsFrom(e.code, Members(e.symbols));
      ListedPairsSize(entries, n - 1);
      DistinctMembers(e.symbols);
      PairsFromSize(e.code, Members(e.symbols));
      forall c: nat, i: nat | (c, i) in before ensures c != e.code {
        ListedPairsMembers(entries, n - 1, c, i);
      }
      assert before !! row;
    }
  }

  lemma SamePair(entries: seq<TrigramEntry>, m: map<nat, seq<nat>>, names: seq<Text>, c: nat, i: nat)
    requires Lists(entries, m) && Collected(m, names)
    ensures (c, i) in ListedPairs(entries, |entries|) <==> (c, i) in Incidence(names, |names|)
  {
    hide Holds, Increasing, Postings, ListedPairs, Incidence, Lists;
    ListedPairsMembers(entries, |entries|, c, i);
    IncidenceMembers(names, |names|, c, i);
    PostingsAreTheHolders(names, c, i);
    EntryOf(entries, m, c);
  }

  lemma ListsIncrease(entries: seq<TrigramEntry>, m: map<nat, seq<nat>>, names: seq<Text>)
    requires Lists(entries, m) && Collected(m, names)
    ensures forall i | 0 <= i < |entries| :: Increasing(entries[i].symbols)
    ensures forall i, j | 0 <= i < j < |entries| :: entries[i].code != entries[j].code
  {
    hide Increasing;
  }

  /** However the map is listed, its lists hold one posting per name and code together. */
  lemma PostingTotalIsCount(entries: seq<TrigramEntry>, m: map<nat, seq<nat>>, names: seq<Text>)
    requires Lists(entries, m) && Collected(m, names)
    ensures PostingTotal(entries, |entries|) == PostingCount(names)
  {
    hide Lists, Collected, Increasing, ListedPairs, Incidence, PostingTotal, PostingCount;
    ListsIncrease(entries, m, names);
    ListedPairsSize(entries, |entries|);
    IncidenceSize(names, |names|);
    TakeAll(names);
    forall pair: (nat, nat)
      ensures pair in ListedPairs(entries, |entries|) <==> pair in Incidence(names, |names|)
    {
      SamePair(entries, m, names, pair.0, pair.1);
    }
    assert ListedPairs(entries, |entries|) == Incidence(names, |names|);
  }

  lemma EntryOf(entries: seq<TrigramEntry>, m: map<nat, seq<nat>>, c: nat)
    requires Lists(entries, m)
    ensures c in m <==> exists k :: 0 <= k < |entries| && entries[k].code == c
    ensures forall k | 0 <= k < |entries| && entries[k].code == c :: entries[k].symbols == m[c]
  {
    var codes := seq(|entries|, k requires 0 <= k < |entries| => entries[k].code);
    DistinctMembers(codes);
    assert Members(codes) <= m.Keys;
    SubsetSize(Members(codes), m.Keys);
    assert c in m ==> c in codes;
  }

  /** A name of n bytes has at most n + 2 codes. */
  lemma {:induction false} PostingCountIsSmall(names: seq<Text>)
    ensures PostingCount(names) <= |Flatten(names)| + 2 * |names|
  {
    hide TrigramSeq;
    if names != [] {
      PostingCountIsSmall(names[..|names| - 1]);
      MembersAreFew(TrigramSeq(names[|names| - 1]));
    }
  }

  lemma CodesAreFew(m: map<nat, seq<nat>>)
    requires SmallCodes(m)
    ensures |m| <= CODE_LIMIT
  {
    assert m.Keys <= Indices(CODE_LIMIT);
    SubsetSize(m.Keys, Indices(CODE_LIMIT));
  }

  /** The hash of a table with 2^bits slots. */
  ghost function HomeOf(bits: nat): Hash {
    c => if bits <= 64 then HomeSlot(c, bits) else 0
  }

  lemma HomeIsHash(bits: nat, code: nat)
    requires bits <= 64
    ensures HomeOf(bits)(code) == HomeSlot(code, bits)
  {
  }

  /** Stores one entry whose list starts at the given posting offset. */
  method Insert(slots: array<Slot>, capacityBits: nat, ent: TrigramEntry, offset: nat,
                ghost h: Hash, ghost postings: seq<nat>, ghost m: map<nat, seq<nat>>)
    requires capacityBits <= 64 && slots.Length == Pow2(capacityBits) && h(ent.code) == HomeSlot(ent.code, capacityBits)
    requires TableFor(slots[..], h, postings, m) && |m| < slots.Length && EMPTY_SLOT !in m
    requires ent.code !in m && ent.code != EMPTY_SLOT && offset == |postings|
    modifies slots
    ensures TableFor(slots[..], h, postings + ent.symbols, m[ent.code := ent.symbols])
  {
    var idx, k := FindFree(slots, HomeSlot(ent.code, capacityBits));
    PlaceCode(slots[..], h, postings, m, ent.code, ent.symbols, idx, k);
    ghost var before := slots[..];
    slots[idx] := Slot(ent.code, offset, |ent.symbols|);
    assert slots[..] == before[idx := Slot(ent.code, offset, |ent.symbols|)];
  }

  /** part is m restricted to the codes of the first n entries. */
  ghost predicate FirstEntries(entries: seq<TrigramEntry>, n: nat, part: map<nat, seq<nat>>, m: map<nat, seq<nat>>) {
    && |part| == n <= |entries|
    && (forall c :: c in part ==> c in m && part[c] == m[c])
    && (forall j | n <= j < |entries| :: entries[j].code !in part)
  }

  lemma NoEntriesYet(entries: seq<TrigramEntry>, m: map<nat, seq<nat>>)
    ensures FirstEntries(entries, 0, map[], m)
  {
  }

  lemma NextEntry(entries: seq<TrigramEntry>, n: nat, part: map<nat, seq<nat>>, m: map<nat, seq<nat>>)
    requires Lists(entries, m) && FirstEntries(entries, n, part, m) && n < |entries|
    ensures entries[n].code in m && entries[n].code !in part && |part| < |m| && part.Keys <= m.Keys
    ensures FirstEntries(entries, n + 1, part[entries[n].code := entries[n].symbols], m)
  {
    var part' := part[entries[n].code := entries[n].symbols];
    assert part'.Keys == part.Keys + {entries[n].code};
  }

  lemma CodesBelowSentinel(part: map<nat, seq<nat>>, m: map<nat, seq<nat>>)
    requires SmallCodes(m) && part.Keys <= m.Keys
    ensures EMPTY_SLOT !in part && EMPTY_SLOT !in m
  {
  }

  lemma AllEntries(entries: seq<TrigramEntry>, part: map<nat, seq<nat>>, m: map<nat, seq<nat>>)
    requires Lists(entries, m) && FirstEntries(entries, |entries|, part, m)
    ensures part == m
  {
    assert part.Keys <= m.Keys;
    SubsetSize(part.Keys, m.Keys);
  }

  /** One round of the insertion loop. */
  method InsertNext(slots: array<Slot>, bits: nat, entries: seq<TrigramEntry>, i: nat, postings: seq<nat>,
                    ghost part: map<nat, seq<nat>>, ghost m: map<nat, seq<nat>>)
    returns (postings': seq<nat>, ghost part': map<nat, seq<nat>>)
    requires Lists(entries, m) && SmallCodes(m) && i < |entries| && FirstEntries(entries, i, part, m)
    requires bits <= 64 && slots.Length == Pow2(bits) && |m| < slots.Length
    requires TableFor(slots[..], HomeOf(bits), postings, part)
    modifies slots
    ensures TableFor(slots[..], HomeOf(bits), postings', part') && FirstEntries(entries, i + 1, part', m)
    ensures |postings'| == |postings| + |entries[i].symbols|
  {
    hide TableFor, FirstEntries, SmallCodes, Lists, HomeOf, HomeSlot, Pow2;
    var ent := entries[i];
    NextEntry(entries, i, part, m);
    HomeIsHash(bits, ent.code);
    CodesBelowSentinel(part, m);
    Insert(slots, bits, ent, |postings|, HomeOf(bits), postings, part);
    postings' := postings + ent.symbols;
    part' := part[ent.code := ent.symbols];
  }

  /** The insertion loop.  Whatever order the entries come in, the result is a table for the map. */
  method InsertAll(slots: array<Slot>, bits: nat, entries: seq<TrigramEntry>, ghost m: map<nat, seq<nat>>)
    returns (postings: seq<nat>)
    requires Lists(entries, m) && SmallCodes(m)
    requires bits <= 64 && slots.Length == Pow2(bits) && |m| < slots.Length
    requires TableFor(slots[..], HomeOf(bits), [], map[])
    modifies slots
    ensures TableFor(slots[..], HomeOf(bits), postings, m) && |postings| == PostingTotal(entries, |entries|)
  {
    hide TableFor, FirstEntries, SmallCodes, Lists, HomeOf, Pow2;
    NoEntriesYet(entries, m);
    postings := [];
    ghost var part: map<nat, seq<nat>> := map[];
    for i := 0 to |entries|
      invariant TableFor(slots[..], HomeOf(bits), postings, part)
      invariant FirstEntries(entries, i, part, m) && |postings| == PostingTotal(entries, i)
    {
      postings, part := InsertNext(slots, bits, entries, i, postings, part, m);
    }
    AllEntries(entries, part, m);
  }

  method FillTable(entries: seq<TrigramEntry>, ghost m: map<nat, seq<nat>>)
    returns (slots: array<Slot>, postings: seq<nat>, capacity: nat, ghost bits: nat)
    requires Lists(entries, m) && SmallCodes(m)
    ensures fresh(slots) && capacity == slots.Length == Pow2(bits) && bits <= 25 && LeastCapacity(|m|, bits)
    ensures |m| < capacity
    ensures TableFor(slots[..], HomeOf(bits), postings, m) && |postings| == PostingTotal(entries, |entries|)
  {
    hide LeastCapacity, Overloaded, Pow2, TableFor, TrailingZeros, HomeSlot, SmallCodes;
    CodesAreFew(m);
    CodeCountsFit(|entries|);
    capacity, bits := CapacityForCount(|entries|);
    TrailingZerosOfPow2(bits);
    var capacityBits := TrailingZeros(capacity);
    slots := new Slot[capacity](i => FREE_SLOT);
    EmptyTable(slots[..], HomeOf(bits));
    postings := InsertAll(slots, capacityBits, entries, m);
  }
}
