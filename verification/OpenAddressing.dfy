/** Linear probing over a table whose size is not tied to anything here, for any hash at all. */
module OpenAddressing {
  import opened FiniteSets
  import opened Trigrams

  datatype Slot = Slot(code: nat, postingOffset: nat, postingCount: nat)

  const FREE_SLOT := Slot(EMPTY_SLOT, 0, 0)

  type Hash = nat -> nat

  // ---- Probe paths ------------------------------------------------------------------------------

  function Probe(home: nat, capacity: nat, k: nat): (r: nat)
    requires home < capacity
    ensures r < capacity
  {
    if k == 0 then home else NextSlot(Probe(home, capacity, k - 1), capacity)
  }

  lemma {:induction false} ProbeWithinRound(home: nat, capacity: nat, k: nat)
    requires home < capacity && k < capacity
    ensures Probe(home, capacity, k) == if home + k < capacity then home + k else home + k - capacity
  {
    if k > 0 {
      ProbeWithinRound(home, capacity, k - 1);
    }
  }

  /** Every slot lies on every probe path, within one round. */
  lemma ProbeReaches(home: nat, capacity: nat, f: nat) returns (d: nat)
    requires home < capacity && f < capacity
    ensures d < capacity && Probe(home, capacity, d) == f
  {
    d := if f >= home then f - home else f + capacity - home;
    ProbeWithinRound(home, capacity, d);
  }

  // ---- The table invariant ----------------------------------------------------------------------

  /** The code sits in the slot after k probes and no free slot comes before it. */
  ghost predicate FoundAfter(slots: seq<Slot>, home: nat, c: nat, k: nat)
    requires home < |slots|
  {
    && slots[Probe(home, |slots|, k)].code == c
    && forall j | 0 <= j < k :: slots[Probe(home, |slots|, j)].code != EMPTY_SLOT
  }

  ghost predicate Found(slots: seq<Slot>, home: nat, c: nat)
    requires home < |slots|
  {
    exists k: nat :: FoundAfter(slots, home, c, k)
  }

  ghost predicate SlotHolds(s: Slot, postings: seq<nat>, m: map<nat, seq<nat>>) {
    && s.code in m
    && s.postingOffset + s.postingCount <= |postings|
    && postings[s.postingOffset..s.postingOffset + s.postingCount] == m[s.code]
  }

  /** Free, or telling the truth about its code. */
  ghost predicate TrueSlot(s: Slot, postings: seq<nat>, m: map<nat, seq<nat>>) {
    s == FREE_SLOT || (s.code != EMPTY_SLOT && SlotHolds(s, postings, m))
  }

  ghost function UsedSlots(slots: seq<Slot>): set<nat> {
    set i | 0 <= i < |slots| && slots[i].code != EMPTY_SLOT
  }

  ghost predicate HashFits(h: Hash, slots: seq<Slot>) {
    forall c :: h(c) < |slots|
  }

  /** The table answers for exactly the codes of m: occupied slots tell the truth, every code of m is
      found before a free slot, and there are as many occupied slots as codes. */
  ghost predicate TableFor(slots: seq<Slot>, h: Hash, postings: seq<nat>, m: map<nat, seq<nat>>) {
    && HashFits(h, slots)
    && (forall i | 0 <= i < |slots| :: TrueSlot(slots[i], postings, m))
    && (forall c :: c in m ==> Found(slots, h(c), c))
    && |UsedSlots(slots)| == |m|
  }

  lemma FreeSlotExists(slots: seq<Slot>) returns (f: nat)
    requires |UsedSlots(slots)| < |slots|
    ensures f < |slots| && slots[f].code == EMPTY_SLOT
  {
    var all := Indices(|slots|);
    SubsetSize(all, UsedSlots(slots));
    f :| f in all && f !in UsedSlots(slots);
  }

  lemma EmptyTable(slots: seq<Slot>, h: Hash)
    requires HashFits(h, slots) && forall i | 0 <= i < |slots| :: slots[i] == FREE_SLOT
    ensures TableFor(slots, h, [], map[])
  {
    assert UsedSlots(slots) == {};
  }

  lemma FoundStays(slots: seq<Slot>, home: nat, c: nat, f: nat, s: Slot)
    requires home < |slots| && Found(slots, home, c) && c != EMPTY_SLOT
    requires f < |slots| && slots[f].code == EMPTY_SLOT && s.code != EMPTY_SLOT
    ensures Found(slots[f := s], home, c)
  {
    var k: nat :| FoundAfter(slots, home, c, k);
    assert FoundAfter(slots[f := s], home, c, k);
  }

  lemma SlotStays(s: Slot, postings: seq<nat>, m: map<nat, seq<nat>>, c: nat, list: seq<nat>)
    requires SlotHolds(s, postings, m) && c !in m
    ensures SlotHolds(s, postings + list, m[c := list])
  {
    var o, n := s.postingOffset, s.postingCount;
    assert (postings + list)[o..o + n] == postings[o..o + n];
  }

  lemma NewSlotHolds(postings: seq<nat>, m: map<nat, seq<nat>>, c: nat, list: seq<nat>)
    ensures SlotHolds(Slot(c, |postings|, |list|), postings + list, m[c := list])
  {
  }

  lemma SlotsStayTrue(slots: seq<Slot>, postings: seq<nat>, m: map<nat, seq<nat>>, c: nat, list: seq<nat>, f: nat)
    requires f < |slots| && c !in m
    requires forall i | 0 <= i < |slots| :: TrueSlot(slots[i], postings, m)
    requires c != EMPTY_SLOT
    ensures var slots' := slots[f := Slot(c, |postings|, |list|)];
      forall i | 0 <= i < |slots'| ::
        TrueSlot(slots'[i], postings + list, m[c := list])
  {
    var slots' := slots[f := Slot(c, |postings|, |list|)];
    forall i | 0 <= i < |slots'|
      ensures TrueSlot(slots'[i], postings + list, m[c := list])
    {
      if i == f {
        NewSlotHolds(postings, m, c, list);
      } else if slots[i] != FREE_SLOT {
        SlotStays(slots[i], postings, m, c, list);
      }
    }
  }

  lemma AllStayFound(slots: seq<Slot>, h: Hash, cs: set<nat>, c: nat, f: nat, s: Slot, k: nat)
    requires HashFits(h, slots) && EMPTY_SLOT !in cs && forall b :: b in cs ==> Found(slots, h(b), b)
    requires f == Probe(h(c), |slots|, k) && slots[f].code == EMPTY_SLOT && s.code == c != EMPTY_SLOT
    requires forall j | 0 <= j < k :: slots[Probe(h(c), |slots|, j)].code != EMPTY_SLOT
    ensures forall b :: b in cs + {c} ==> Found(slots[f := s], h(b), b)
  {
    var slots' := slots[f := s];
    forall b | b in cs + {c} ensures Found(slots', h(b), b) {
      if b == c {
        assert FoundAfter(slots', h(c), c, k);
      } else {
        FoundStays(slots, h(b), b, f, s);
      }
    }
  }

  lemma OneMoreUsed(slots: seq<Slot>, f: nat, s: Slot)
    requires f < |slots| && slots[f].code == EMPTY_SLOT && s.code != EMPTY_SLOT
    ensures |UsedSlots(slots[f := s])| == |UsedSlots(slots)| + 1
  {
    assert UsedSlots(slots[f := s]) == UsedSlots(slots) + {f};
  }

  /** Filling the first free slot on the path of a new code extends the table by that code. */
  lemma PlaceCode(slots: seq<Slot>, h: Hash, postings: seq<nat>, m: map<nat, seq<nat>>, c: nat, list: seq<nat>, f: nat,
                  k: nat)
    requires TableFor(slots, h, postings, m) && EMPTY_SLOT !in m && c !in m && c != EMPTY_SLOT
    requires f == Probe(h(c), |slots|, k) && slots[f].code == EMPTY_SLOT
    requires forall j | 0 <= j < k :: slots[Probe(h(c), |slots|, j)].code != EMPTY_SLOT
    ensures TableFor(slots[f := Slot(c, |postings|, |list|)], h, postings + list, m[c := list])
  {
    hide Probe, FoundAfter, Found, SlotHolds, TrueSlot, UsedSlots;
    var s := Slot(c, |postings|, |list|);
    SlotsStayTrue(slots, postings, m, c, list, f);
    AllStayFound(slots, h, m.Keys, c, f, s, k);
    OneMoreUsed(slots, f, s);
    OneMoreKey(m, c, list);
  }

  lemma OneMoreKey<K, V>(m: map<K, V>, k: K, v: V)
    requires k !in m
    ensures m[k := v].Keys == m.Keys + {k} && |m[k := v]| == |m| + 1
  {
    var m' := m[k := v];
    assert m'.Keys == m.Keys + {k};
  }

  /** Linear probing for the first free slot on a path. */
  method FindFree(slots: array<Slot>, home: nat) returns (idx: nat, ghost k: nat)
    requires home < slots.Length && |UsedSlots(slots[..])| < slots.Length
    ensures idx == Probe(home, slots.Length, k) && slots[idx].code == EMPTY_SLOT
    ensures forall j | 0 <= j < k :: slots[Probe(home, slots.Length, j)].code != EMPTY_SLOT
  {
    ghost var f := FreeSlotExists(slots[..]);
    ghost var d := ProbeReaches(home, slots.Length, f);
    idx, k := home, 0;
    while slots[idx].code != EMPTY_SLOT
      invariant idx == Probe(home, slots.Length, k) && k <= d
      invariant forall j | 0 <= j < k :: slots[Probe(home, slots.Length, j)].code != EMPTY_SLOT
      decreases d - k
    {
      idx, k := NextSlot(idx, slots.Length), k + 1;
    }
  }

  lemma NotFoundBeforeFree(slots: seq<Slot>, home: nat, c: nat, k: nat)
    requires home < |slots| && c != EMPTY_SLOT
    requires slots[Probe(home, |slots|, k)].code == EMPTY_SLOT
    requires forall j | 0 <= j < k :: slots[Probe(home, |slots|, j)].code != c
    ensures !Found(slots, home, c)
  {
    forall k': nat ensures !FoundAfter(slots, home, c, k') {
      assert k' > k ==> slots[Probe(home, |slots|, k)].code == EMPTY_SLOT;
    }
  }
}
