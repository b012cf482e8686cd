/** Symbol tables: insertion-ordered maps from names to reference lists, what filling one means, and
    why merging tables is the same as filling one table with everything. */
module SymbolTables {
  import opened Bytes
  import opened Sequences

  datatype Meta = Meta(isDefined: bool, sourceSection: Byte, symbolType: Byte, bind: Byte, visibility: Byte,
                       offset: nat)

  datatype Ref = Ref(fileId: nat, meta: Meta)

  /** One call of the store-symbol callback. */
  datatype Event = Event(name: Text, ref: Ref)

  /** keys lists the names in insertion order; it decides the symbol ids. */
  datatype Table = Table(keys: seq<Text>, refs: map<Text, seq<Ref>>)

  const EMPTY_TABLE := Table([], map[])

  ghost predicate Valid(t: Table) {
    && (forall i, j | 0 <= i < j < |t.keys| :: t.keys[i] != t.keys[j])
    && (forall n :: n in t.refs <==> n in t.keys)
  }

  // ---- Operations -------------------------------------------------------------------------------

  /** `try_emplace` followed by appending the given references. */
  function Absorb(t: Table, name: Text, refs: seq<Ref>): Table {
    if name in t.refs then Table(t.keys, t.refs[name := t.refs[name] + refs])
    else Table(t.keys + [name], t.refs[name := refs])
  }

  /** Merges the first n entries of b into a, in the order of b. */
  function MergeFirst(a: Table, b: Table, n: nat): Table
    requires n <= |b.keys| && forall k | 0 <= k < |b.keys| :: b.keys[k] in b.refs
  {
    if n == 0 then a
    else
      var name := b.keys[n - 1];
      Absorb(MergeFirst(a, b, n - 1), name, b.refs[name])
  }

  // ---- What a table means -----------------------------------------------------------------------

  /** The distinct names in order of first appearance. */
  function FirstSeen(events: seq<Event>): (r: seq<Text>)
    ensures forall i, j | 0 <= i < j < |r| :: r[i] != r[j]
  {
    if events == [] then []
    else
      var r, name := FirstSeen(events[..|events| - 1]), events[|events| - 1].name;
      if name in r then r else r + [name]
  }

  /** The references stored under one name, in order. */
  function RefsNamed(events: seq<Event>, name: Text): seq<Ref> {
    if events == [] then []
    else
      var r, last := RefsNamed(events[..|events| - 1], name), events[|events| - 1];
      if last.name == name then r + [last.ref] else r
  }

  /** The table of an event sequence: names as first seen, each with its references. */
  function TableOf(events: seq<Event>): (t: Table)
    ensures Valid(t)
  {
    var names := FirstSeen(events);
    Table(names, map n | n in names :: RefsNamed(events, n))
  }

  lemma UnseenHasNoRefs(events: seq<Event>, name: Text)
    ensures name !in FirstSeen(events) <==> RefsNamed(events, name) == []
  {
  }

  lemma FirstSeenSnoc(events: seq<Event>, e: Event)
    ensures FirstSeen(events + [e])
      == if e.name in FirstSeen(events) then FirstSeen(events) else FirstSeen(events) + [e.name]
  {
    assert (events + [e])[..|events|] == events;
  }

  lemma RefsNamedSnoc(events: seq<Event>, e: Event, name: Text)
    ensures RefsNamed(events + [e], name) == RefsNamed(events, name) + if e.name == name then [e.ref] else []
  {
    assert (events + [e])[..|events|] == events;
  }

  function NamesOf(events: seq<Event>): (r: seq<Text>)
    ensures |r| == |events| && forall i | 0 <= i < |events| :: r[i] == events[i].name
  {
    seq(|events|, i requires 0 <= i < |events| => events[i].name)
  }

  lemma {:induction false} KeysAreFirsts(events: seq<Event>)
    ensures FirstSeen(events) == Firsts(NamesOf(events))
  {
    if events != [] {
      var rest := events[..|events| - 1];
      KeysAreFirsts(rest);
      assert NamesOf(events)[..|rest|] == NamesOf(rest);
    }
  }

  /** The names of a table are all names stored, each once, in the order of their first event. */
  lemma KeysInOrder(events: seq<Event>) returns (at: seq<nat>)
    ensures var keys := TableOf(events).keys;
      && |at| == |keys| && Increasing(at)
      && (forall a | 0 <= a < |at| :: at[a] < |events| && events[at[a]].name == keys[a])
      && (forall a, j | 0 <= a < |at| && 0 <= j < at[a] :: events[j].name != keys[a])
    ensures forall j | 0 <= j < |events| :: events[j].name in TableOf(events).keys
  {
    hide Firsts;
    KeysAreFirsts(events);
    var names := NamesOf(events);
    at := FirstsInOrder(names);
    forall a, j | 0 <= a < |at| && 0 <= j < at[a]
      ensures at[a] < |events| && events[j].name != TableOf(events).keys[a]
    {
      assert FirstAt(names, Firsts(names)[a], at[a]);
      assert names[..at[a]][j] == names[j];
    }
    forall a | 0 <= a < |at| ensures at[a] < |events| && events[at[a]].name == TableOf(events).keys[a] {
      assert FirstAt(names, Firsts(names)[a], at[a]);
    }
    forall j | 0 <= j < |events| ensures events[j].name in TableOf(events).keys {
      assert names[j] in names;
    }
  }

  function RefIfNamed(name: Text): Event -> seq<Ref> {
    (e: Event) => if e.name == name then [e.ref] else []
  }

  lemma {:induction false} RefsNamedGathers(events: seq<Event>, name: Text)
    ensures RefsNamed(events, name) == Gather(RefIfNamed(name), events)
  {
    if events != [] {
      RefsNamedGathers(events[..|events| - 1], name);
    }
  }

  /** Under every name stand the references of its events, all of them, in their order. */
  lemma RefsInOrder(events: seq<Event>, name: Text) returns (at: seq<nat>)
    requires name in TableOf(events).refs
    ensures var refs := TableOf(events).refs[name];
      && |at| == |refs| && Increasing(at)
      && (forall j: nat :: j in at <==> j < |events| && events[j].name == name)
      && (forall k | 0 <= k < |at| :: at[k] < |events| && refs[k] == events[at[k]].ref)
  {
    hide Gather;
    RefsNamedGathers(events, name);
    at := GatherPicks(RefIfNamed(name), events);
    forall j: nat ensures j in at <==> j < |events| && events[j].name == name {
      assert j in at <==> Yields(RefIfNamed(name), events, j);
    }
    forall k | 0 <= k < |at| ensures at[k] < |events| && RefsNamed(events, name)[k] == events[at[k]].ref {
      assert at[k] in at;
      assert YieldsJust(RefIfNamed(name), events, at[k], RefsNamed(events, name)[k]);
    }
  }

  lemma SameTable(t: Table, t': Table)
    requires Valid(t) && Valid(t') && t.keys == t'.keys && forall n | n in t.keys :: t.refs[n] == t'.refs[n]
    ensures t == t'
  {
    assert t.refs.Keys == t'.refs.Keys;
  }

  /** Storing one more symbol gives the table of one more event. */
  lemma StoreOne(events: seq<Event>, e: Event)
    ensures TableOf(events + [e]) == Absorb(TableOf(events), e.name, [e.ref])
  {
    var t, t' := TableOf(events + [e]), Absorb(TableOf(events), e.name, [e.ref]);
    FirstSeenSnoc(events, e);
    UnseenHasNoRefs(events, e.name);
    forall n | n in t.keys ensures t.refs[n] == t'.refs[n] {
      RefsNamedSnoc(events, e, n);
    }
    SameTable(t, t');
  }

  // ---- Merging ----------------------------------------------------------------------------------

  /** The names of ns that are not among known, in order. */
  function Fresh(ns: seq<Text>, known: seq<Text>): seq<Text> {
    if ns == [] then []
    else
      var r, last := Fresh(ns[..|ns| - 1], known), ns[|ns| - 1];
      if last in known then r else r + [last]
  }

  lemma FreshMembers(ns: seq<Text>, known: seq<Text>, n: Text)
    ensures n in Fresh(ns, known) <==> n in ns && n !in known
  {
    if ns != [] {
      FreshMembers(ns[..|ns| - 1], known, n);
      assert n in ns <==> n in ns[..|ns| - 1] || n == ns[|ns| - 1];
    }
  }

  function Look(t: Table, n: Text): seq<Ref> {
    if n in t.refs then t.refs[n] else []
  }

  lemma NothingFresh(known: seq<Text>)
    ensures Fresh([], known) == []
  {
  }

  lemma {:induction false} MergeFirstKeys(a: Table, b: Table, n: nat)
    requires Valid(a) && Valid(b) && n <= |b.keys|
    ensures var m := MergeFirst(a, b, n);
      m.keys == a.keys + Fresh(b.keys[..n], a.keys) && Valid(m)
  {
    hide Absorb, Fresh;
    if n == 0 {
      NothingFresh(a.keys);
    } else {
      MergeFirstKeys(a, b, n - 1);
      var m, name := MergeFirst(a, b, n - 1), b.keys[n - 1];
      TakeSnoc(b.keys, n - 1);
      AbsorbedKeys(m, a.keys, b.keys[..n - 1], name, b.refs[name]);
    }
  }

  lemma AbsorbedKeys(m: Table, known: seq<Text>, ns: seq<Text>, name: Text, refs: seq<Ref>)
    requires Valid(m) && m.keys == known + Fresh(ns, known) && name !in ns
    ensures var m' := Absorb(m, name, refs);
      Valid(m') && m'.keys == known + Fresh(ns + [name], known)
  {
    hide Fresh;
    FreshMembers(ns, known, name);
    FreshSnoc(ns, name, known);
  }

  lemma LookAbsorbed(t: Table, name: Text, refs: seq<Ref>, n: Text)
    ensures Look(Absorb(t, name, refs), n) == Look(t, n) + if n == name then refs else []
  {
  }

  lemma {:induction false} MergeFirstRefs(a: Table, b: Table, n: nat, name: Text)
    requires Valid(a) && Valid(b) && n <= |b.keys|
    ensures Look(MergeFirst(a, b, n), name) == Look(a, name) + if name in b.keys[..n] then b.refs[name] else []
  {
    hide Look, Absorb;
    if n > 0 {
      var key := b.keys[n - 1];
      MergeFirstRefs(a, b, n - 1, name);
      LookAbsorbed(MergeFirst(a, b, n - 1), key, b.refs[key], name);
      TakeSnoc(b.keys, n - 1);
      assert key !in b.keys[..n - 1];
    }
  }

  lemma FreshSnoc(ns: seq<Text>, n: Text, known: seq<Text>)
    ensures Fresh(ns + [n], known) == Fresh(ns, known) + if n in known then [] else [n]
  {
    assert (ns + [n])[..|ns|] == ns;
  }

  lemma {:induction false} FirstSeenAppend(a: seq<Event>, b: seq<Event>)
    ensures FirstSeen(a + b) == FirstSeen(a) + Fresh(FirstSeen(b), FirstSeen(a))
  {
    hide *;
    if b == [] {
      FirstSeenNoMore(a);
      assert a + b == a;
    } else {
      var b', e := b[..|b| - 1], b[|b| - 1];
      FirstSeenAppend(a, b');
      assert a + b == (a + b') + [e] && b == b' + [e];
      FirstSeenOneMore(a, b', e);
    }
  }

  lemma FirstSeenNoMore(a: seq<Event>)
    ensures FirstSeen(a) == FirstSeen(a) + Fresh(FirstSeen([]), FirstSeen(a))
  {
    hide FirstSeen;
    NothingStored([]);
  }

  lemma NothingStored(name: Text)
    ensures FirstSeen([]) == [] && RefsNamed([], name) == []
  {
  }

  lemma FirstSeenOneMore(a: seq<Event>, b: seq<Event>, e: Event)
    requires FirstSeen(a + b) == FirstSeen(a) + Fresh(FirstSeen(b), FirstSeen(a))
    ensures FirstSeen((a + b) + [e]) == FirstSeen(a) + Fresh(FirstSeen(b + [e]), FirstSeen(a))
  {
    hide *;
    FirstSeenSnoc(a + b, e);
    FirstSeenSnoc(b, e);
    FreshMembers(FirstSeen(b), FirstSeen(a), e.name);
    FreshSnoc(FirstSeen(b), e.name, FirstSeen(a));
  }

  lemma {:induction false} RefsNamedAppend(a: seq<Event>, b: seq<Event>, name: Text)
    ensures RefsNamed(a + b, name) == RefsNamed(a, name) + RefsNamed(b, name)
  {
    hide *;
    if b == [] {
      NothingStored(name);
      assert a + b == a;
    } else {
      var b', e := b[..|b| - 1], b[|b| - 1];
      RefsNamedAppend(a, b', name);
      assert a + b == (a + b') + [e] && b == b' + [e];
      RefsNamedSnoc(a + b', e, name);
      RefsNamedSnoc(b', e, name);
    }
  }

  lemma LookIsRefsNamed(events: seq<Event>, name: Text)
    ensures Look(TableOf(events), name) == RefsNamed(events, name)
  {
    UnseenHasNoRefs(events, name);
  }

  /** Merging the tables of two event sequences gives the table of one after the other: same names in
      the same order, same references in the same order. */
  lemma MergeIsAppend(a: seq<Event>, b: seq<Event>)
    ensures MergeFirst(TableOf(a), TableOf(b), |TableOf(b).keys|) == TableOf(a + b)
  {
    var ta, tb, t := TableOf(a), TableOf(b), TableOf(a + b);
    var n := |tb.keys|;
    var m := MergeFirst(ta, tb, n);
    assert tb.keys[..n] == tb.keys;
    MergeFirstKeys(ta, tb, n);
    FirstSeenAppend(a, b);
    forall name | name in t.keys ensures m.refs[name] == t.refs[name] {
      MergeFirstRefs(ta, tb, n, name);
      RefsNamedAppend(a, b, name);
      LookIsRefsNamed(a, name);
      LookIsRefsNamed(b, name);
    }
    SameTable(m, t);
  }

  // ---- Conservation -----------------------------------------------------------------------------

  /** The number of references stored under the first n names. */
  function CountRefs(t: Table, n: nat): nat
    requires n <= |t.keys| && forall k | 0 <= k < |t.keys| :: t.keys[k] in t.refs
  {
    if n == 0 then 0 else CountRefs(t, n - 1) + |t.refs[t.keys[n - 1]]|
  }

  lemma {:induction false} CountOneMore(t: Table, t': Table, n: nat, i: nat)
    requires Valid(t) && Valid(t') && t.keys <= t'.keys && n <= |t.keys|
    requires forall k | 0 <= k < |t.keys| :: |t'.refs[t.keys[k]]| == |t.refs[t.keys[k]]| + if k == i then 1 else 0
    ensures CountRefs(t', n) == CountRefs(t, n) + if i < n then 1 else 0
  {
    if n > 0 {
      CountOneMore(t, t', n - 1, i);
      assert t'.keys[n - 1] == t.keys[n - 1];
    }
  }

  lemma CountLast(t: Table, n: nat)
    requires Valid(t) && n < |t.keys|
    ensures CountRefs(t, n + 1) == CountRefs(t, n) + |t.refs[t.keys[n]]|
  {
  }

  lemma CountAfterAbsorb(t: Table, name: Text, r: Ref)
    requires Valid(t)
    ensures var t' := Absorb(t, name, [r]);
      Valid(t') && CountRefs(t', |t'.keys|) == CountRefs(t, |t.keys|) + 1
  {
    hide CountRefs;
    var t' := Absorb(t, name, [r]);
    if name in t.refs {
      var i :| 0 <= i < |t.keys| && t.keys[i] == name;
      CountOneMore(t, t', |t.keys|, i);
    } else {
      CountOneMore(t, t', |t.keys|, |t.keys|);
      CountLast(t', |t.keys|);
    }
  }

  /** No symbol is lost and none is stored twice: a table holds one reference per event. */
  lemma {:induction false} EveryEventStoredOnce(events: seq<Event>)
    ensures CountRefs(TableOf(events), |TableOf(events).keys|) == |events|
  {
    if events != [] {
      var rest, e := events[..|events| - 1], events[|events| - 1];
      EveryEventStoredOnce(rest);
      StoreOne(rest, e);
      assert events == rest + [e];
      CountAfterAbsorb(TableOf(rest), e.name, e.ref);
    }
  }
}
