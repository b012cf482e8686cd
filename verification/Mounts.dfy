/** Mount pruning and bind-mount elimination, starting from the list of parsed mounts. */
module Mounts {
  import opened Bytes
  import opened Sequences
  import opened PathOrder

  datatype Mount = Mount(
    id: int, parentId: int, device: (nat, nat), root: Text, mountPoint: Text,
    prunedDueToFsType: bool, prunedDueToPath: bool, toRemove: bool)

  type MountMap = map<int, Mount>

  predicate DirectlyPruned(m: Mount) {
    m.prunedDueToFsType || m.prunedDueToPath
  }

  // ---- Under a pruned mount -----------------------------------------------------------------------

  /** anc is reached from id by following that many parent links; zero is nobody's id. */
  ghost predicate Climb(mounts: MountMap, id: int, anc: int, steps: nat)
    decreases steps
  {
    && id in mounts
    && if steps == 0 then id == anc else mounts[id].parentId != 0 && Climb(mounts, mounts[id].parentId, anc, steps - 1)
  }

  /** The mount itself or some ancestor is pruned. */
  ghost predicate UnderPruned(mounts: MountMap, id: int) {
    exists anc, steps: nat :: Climb(mounts, id, anc, steps) && anc in mounts && DirectlyPruned(mounts[anc])
  }

  /** From the mount to its parent and on, up to one that is pruned for its type or for its path. */
  ghost predicate LeadsToPruned(mounts: MountMap, id: int, chain: seq<int>) {
    && chain != [] && chain[0] == id && (forall k | 0 <= k < |chain| :: chain[k] in mounts)
    && (forall j, k | 0 <= j < k < |chain| && k == j + 1 :: mounts[chain[j]].parentId == chain[k] != 0)
    && var last := mounts[chain[|chain| - 1]]; last.prunedDueToFsType || last.prunedDueToPath
  }

  lemma RestLeads(mounts: MountMap, id: int, chain: seq<int>)
    requires LeadsToPruned(mounts, id, chain) && |chain| > 1
    ensures id in mounts && chain[1] == mounts[id].parentId && chain[1] != 0
    ensures LeadsToPruned(mounts, chain[1], chain[1..])
  {
    var rest := chain[1..];
    assert chain[0] == id && chain[1] == mounts[chain[0]].parentId;
    forall k | 0 <= k < |rest| ensures rest[k] == chain[k + 1] && rest[k] in mounts {
      assert chain[k + 1] in mounts;
    }
  }

  lemma {:induction false} ChainClimbs(mounts: MountMap, id: int, chain: seq<int>)
    requires LeadsToPruned(mounts, id, chain)
    ensures chain != [] && Climb(mounts, id, chain[|chain| - 1], |chain| - 1)
    decreases |chain|
  {
    if |chain| > 1 {
      RestLeads(mounts, id, chain);
      ChainClimbs(mounts, chain[1], chain[1..]);
    }
  }

  lemma {:induction false} ClimbChain(mounts: MountMap, id: int, anc: int, steps: nat) returns (chain: seq<int>)
    requires Climb(mounts, id, anc, steps) && anc in mounts
    requires mounts[anc].prunedDueToFsType || mounts[anc].prunedDueToPath
    ensures LeadsToPruned(mounts, id, chain)
    decreases steps
  {
    if steps == 0 {
      chain := [id];
    } else {
      chain := ClimbChain(mounts, mounts[id].parentId, anc, steps - 1);
      chain := [id] + chain;
    }
  }

  /** A mount is under a pruned one exactly when such a chain starts with it. */
  lemma UnderPrunedByChain(mounts: MountMap, id: int)
    ensures UnderPruned(mounts, id) <==> exists chain :: LeadsToPruned(mounts, id, chain)
  {
    if UnderPruned(mounts, id) {
      var anc, steps: nat :| Climb(mounts, id, anc, steps) && anc in mounts && DirectlyPruned(mounts[anc]);
      var chain := ClimbChain(mounts, id, anc, steps);
    }
    if chain :| LeadsToPruned(mounts, id, chain) {
      ChainClimbs(mounts, id, chain);
      assert DirectlyPruned(mounts[chain[|chain| - 1]]);
    }
  }

  /** One link at a time, as the recursion goes. */
  lemma UnderPrunedByParent(mounts: MountMap, id: int)
    ensures id !in mounts ==> !UnderPruned(mounts, id)
    ensures id in mounts ==> var m := mounts[id];
      UnderPruned(mounts, id) <==>
        m.prunedDueToFsType || m.prunedDueToPath || (m.parentId != 0 && UnderPruned(mounts, m.parentId))
  {
    if id in mounts {
      if DirectlyPruned(mounts[id]) {
        assert Climb(mounts, id, id, 0);
      } else if mounts[id].parentId != 0 && UnderPruned(mounts, mounts[id].parentId) {
        var anc, steps: nat :|
          Climb(mounts, mounts[id].parentId, anc, steps) && anc in mounts && DirectlyPruned(mounts[anc]);
        assert Climb(mounts, id, anc, steps + 1);
      }
      if UnderPruned(mounts, id) && !DirectlyPruned(mounts[id]) {
        var anc, steps: nat :| Climb(mounts, id, anc, steps) && anc in mounts && DirectlyPruned(mounts[anc]);
        assert Climb(mounts, mounts[id].parentId, anc, steps - 1);
      }
    }
  }

  // ---- When the search ends -------------------------------------------------------------------------

  /** The search goes on from id to a parent that is there. */
  predicate GoesOn(mounts: MountMap, id: int) {
    id in mounts && !DirectlyPruned(mounts[id]) && mounts[id].parentId != 0 && mounts[id].parentId in mounts
  }

  /** From id the search comes to anc after so many steps. */
  ghost predicate Leads(mounts: MountMap, id: int, anc: int, steps: nat)
    decreases steps
  {
    if steps == 0 then id == anc else GoesOn(mounts, id) && Leads(mounts, mounts[id].parentId, anc, steps - 1)
  }

  /** No mount comes back to itself. */
  ghost predicate Acyclic(mounts: MountMap) {
    forall id: int, steps: nat | steps >= 1 :: !Leads(mounts, id, id, steps)
  }

  lemma {:induction false} LeadsFurther(mounts: MountMap, id: int, anc: int, steps: nat)
    requires Leads(mounts, id, anc, steps) && GoesOn(mounts, anc)
    ensures Leads(mounts, id, mounts[anc].parentId, steps + 1)
    decreases steps
  {
    if steps > 0 {
      LeadsFurther(mounts, mounts[id].parentId, anc, steps - 1);
    }
  }

  /** All of these mounts come to id in at least one step. */
  ghost predicate Behind(mounts: MountMap, visited: set<int>, id: int) {
    visited <= mounts.Keys && forall v | v in visited :: exists steps: nat :: steps >= 1 && Leads(mounts, v, id, steps)
  }

  lemma OneStepFurther(mounts: MountMap, visited: set<int>, id: int)
    requires Acyclic(mounts) && Behind(mounts, visited, id) && GoesOn(mounts, id)
    ensures id !in visited && Behind(mounts, visited + {id}, mounts[id].parentId)
  {
    var parent := mounts[id].parentId;
    forall v | v in visited + {id} ensures exists steps: nat :: steps >= 1 && Leads(mounts, v, parent, steps) {
      if v == id {
        assert Leads(mounts, id, parent, 0 + 1) by { LeadsFurther(mounts, id, id, 0); }
      } else {
        var steps: nat :| steps >= 1 && Leads(mounts, v, id, steps);
        LeadsFurther(mounts, v, id, steps);
      }
    }
  }

  /** The steps the search still takes from id; what is behind it is never met again. */
  ghost function Remaining(mounts: MountMap, id: int, visited: set<int>): nat
    requires Acyclic(mounts) && Behind(mounts, visited, id)
    decreases mounts.Keys - visited
  {
    if !GoesOn(mounts, id) then 0
    else
      OneStepFurther(mounts, visited, id);
      1 + Remaining(mounts, mounts[id].parentId, visited + {id})
  }

  lemma {:induction false} RemainingForgets(mounts: MountMap, id: int, visited: set<int>, visited': set<int>)
    requires Acyclic(mounts) && Behind(mounts, visited, id) && Behind(mounts, visited', id)
    ensures Remaining(mounts, id, visited) == Remaining(mounts, id, visited')
    decreases mounts.Keys - visited
  {
    hide Acyclic, Behind;
    if GoesOn(mounts, id) {
      OneStepFurther(mounts, visited, id);
      OneStepFurther(mounts, visited', id);
      assert visited + {id} > visited;
      RemainingForgets(mounts, mounts[id].parentId, visited + {id}, visited' + {id});
    }
  }

  ghost function ChainLength(mounts: MountMap, id: int): nat
    requires Acyclic(mounts)
  {
    Remaining(mounts, id, {})
  }

  lemma ParentChainIsShorter(mounts: MountMap, id: int)
    requires Acyclic(mounts) && GoesOn(mounts, id)
    ensures ChainLength(mounts, mounts[id].parentId) + 1 == ChainLength(mounts, id)
  {
    OneStepFurther(mounts, {}, id);
    RemainingForgets(mounts, mounts[id].parentId, {}, {} + {id});
  }

  type Ranking = int -> nat

  /** Parents rank below their children wherever the search goes on. */
  ghost predicate Ranked(mounts: MountMap, rank: Ranking) {
    forall id | GoesOn(mounts, id) :: rank(mounts[id].parentId) < rank(id)
  }

  lemma {:induction false} RanksFall(mounts: MountMap, rank: Ranking, id: int, anc: int, steps: nat)
    requires Ranked(mounts, rank) && Leads(mounts, id, anc, steps)
    ensures rank(anc) + steps <= rank(id)
    decreases steps
  {
    if steps > 0 {
      RanksFall(mounts, rank, mounts[id].parentId, anc, steps - 1);
    }
  }

  /** Mounts can be ranked exactly when no unpruned chain runs into itself. */
  lemma RankingExistsIffAcyclic(mounts: MountMap)
    ensures (exists rank: Ranking :: Ranked(mounts, rank)) <==> Acyclic(mounts)
  {
    if rank: Ranking :| Ranked(mounts, rank) {
      forall id: int, steps: nat | steps >= 1 ensures !Leads(mounts, id, id, steps) {
        if Leads(mounts, id, id, steps) {
          RanksFall(mounts, rank, id, id, steps);
        }
      }
    }
    if Acyclic(mounts) {
      var rank: Ranking := id => if Acyclic(mounts) then ChainLength(mounts, id) else 0;
      forall id | GoesOn(mounts, id) ensures rank(mounts[id].parentId) < rank(id) {
        ParentChainIsShorter(mounts, id);
      }
      assert Ranked(mounts, rank);
    }
  }

  /** Started with an empty cache, the search from id returns with at most that many calls under way. */
  ghost predicate Returns(mounts: MountMap, id: int, calls: nat)
    decreases calls
  {
    && calls > 0
    && (id !in mounts || DirectlyPruned(mounts[id]) || mounts[id].parentId == 0
        || Returns(mounts, mounts[id].parentId, calls - 1))
  }

  ghost predicate Ends(mounts: MountMap, id: int) {
    exists calls: nat :: Returns(mounts, id, calls)
  }

  lemma {:induction false} ChainReturns(mounts: MountMap, id: int)
    requires Acyclic(mounts)
    ensures Returns(mounts, id, ChainLength(mounts, id) + 2)
    decreases ChainLength(mounts, id)
  {
    if GoesOn(mounts, id) {
      ParentChainIsShorter(mounts, id);
      ChainReturns(mounts, mounts[id].parentId);
    }
  }

  lemma {:induction false} ReturnsFurtherOn(mounts: MountMap, id: int, anc: int, steps: nat, calls: nat)
    requires Leads(mounts, id, anc, steps) && Returns(mounts, id, calls)
    ensures calls > steps && Returns(mounts, anc, calls - steps)
    decreases steps
  {
    if steps > 0 {
      ReturnsFurtherOn(mounts, mounts[id].parentId, anc, steps - 1, calls - 1);
    }
  }

  lemma {:induction false} CyclesNeverReturn(mounts: MountMap, id: int, steps: nat, calls: nat)
    requires Leads(mounts, id, id, steps) && steps >= 1
    ensures !Returns(mounts, id, calls)
    decreases calls
  {
    if Returns(mounts, id, calls) {
      ReturnsFurtherOn(mounts, id, id, steps, calls);
      CyclesNeverReturn(mounts, id, steps, calls - steps);
    }
  }

  /** The search returns for every id exactly when no unpruned chain runs into itself. */
  lemma SearchReturnsIffAcyclic(mounts: MountMap)
    ensures (forall id :: Ends(mounts, id)) <==> Acyclic(mounts)
  {
    if Acyclic(mounts) {
      forall id ensures Ends(mounts, id) {
        ChainReturns(mounts, id);
      }
    } else {
      var id: int, steps: nat :| steps >= 1 && Leads(mounts, id, id, steps);
      forall calls: nat ensures !Returns(mounts, id, calls) {
        CyclesNeverReturn(mounts, id, steps, calls);
      }
      assert !Ends(mounts, id);
    }
  }

  /** An unpruned mount that is its own parent, as the root of a mount namespace is listed: the search
      from it never returns, whatever other mounts there are. */
  lemma OwnParentNeverReturns(mounts: MountMap, id: int, calls: nat)
    requires id in mounts && id != 0 && mounts[id].parentId == id
    requires !mounts[id].prunedDueToFsType && !mounts[id].prunedDueToPath
    ensures !Acyclic(mounts) && !Returns(mounts, id, calls)
  {
    LeadsFurther(mounts, id, id, 0);
    CyclesNeverReturn(mounts, id, 1, calls);
  }

  /** The search returns at once from a mount that is not there, is pruned itself or has no parent. */
  lemma ReturnsAtOnce(mounts: MountMap, id: int)
    ensures Returns(mounts, id, 1) <==> id !in mounts || mounts[id].parentId == 0
                                        || mounts[id].prunedDueToFsType || mounts[id].prunedDueToPath
  {
  }

  // ---- The memoised search --------------------------------------------------------------------------

  class PrunedCache {
    var known: map<int, bool>

    /** Only right answers about mounts that exist. */
    ghost predicate Correct(mounts: MountMap)
      reads this
    {
      forall id :: id in known ==> id in mounts && known[id] == UnderPruned(mounts, id)
    }

    constructor ()
      ensures known == map[]
    {
      known := map[];
    }
  }

  /** The memoised search.  Whatever the cache held before, it says whether the mount or an ancestor is
      pruned, and leaves a cache that is still right; an unknown id is answered but not remembered. */
  method FindWhetherUnderPruned(id: int, idToMount: MountMap, cache: PrunedCache) returns (result: bool)
    requires Acyclic(idToMount) && cache.Correct(idToMount)
    modifies cache
    ensures result == UnderPruned(idToMount, id) && cache.Correct(idToMount)
    ensures old(cache.known).Keys <= cache.known.Keys
    ensures if id in idToMount then id in cache.known else cache.known == old(cache.known)
    decreases if id in idToMount then ChainLength(idToMount, id) + 1 else 0
  {
    hide UnderPruned, Climb, Acyclic, Remaining, ChainLength;
    UnderPrunedByParent(idToMount, id);
    if id in cache.known {
      return cache.known[id];
    }
    if id !in idToMount {
      return false;
    }
    var m := idToMount[id];
    result := DirectlyPruned(m);
    if !result && m.parentId != 0 {
      if m.parentId in idToMount {
        ParentChainIsShorter(idToMount, id);
      }
      result := FindWhetherUnderPruned(m.parentId, idToMount, cache);
    }
    cache.known := cache.known[id := result];
  }

  // ---- Removing what is pruned --------------------------------------------------------------------

  /** The map the search runs on: the last mount of every id. */
  function ById(mounts: seq<Mount>): (r: MountMap)
    ensures forall id :: id in r <==> exists i :: 0 <= i < |mounts| && mounts[i].id == id
  {
    if mounts == [] then map[]
    else
      var rest, last := mounts[..|mounts| - 1], mounts[|mounts| - 1];
      assert mounts == rest + [last];
      ById(rest)[last.id := last]
  }

  lemma {:induction false} ByIdIsLast(mounts: seq<Mount>, i: nat)
    requires i < |mounts| && forall j | i < j < |mounts| :: mounts[j].id != mounts[i].id
    ensures mounts[i].id in ById(mounts) && ById(mounts)[mounts[i].id] == mounts[i]
  {
    if i < |mounts| - 1 {
      ByIdIsLast(mounts[..|mounts| - 1], i);
    }
  }

  ghost predicate UniqueIds(mounts: seq<Mount>) {
    forall i, j | 0 <= i < j < |mounts| :: mounts[i].id != mounts[j].id
  }

  /** The mounts that are neither pruned nor under a pruned one, in their order. */
  ghost function Visible(mounts: seq<Mount>, all: MountMap): seq<Mount> {
    if mounts == [] then []
    else
      var r, last := Visible(mounts[..|mounts| - 1], all), mounts[|mounts| - 1];
      if UnderPruned(all, last.id) then r else r + [last.(toRemove := false)]
  }

  ghost function ShownPart(all: MountMap): Mount -> seq<Mount> {
    (m: Mount) => if UnderPruned(all, m.id) then [] else [m.(toRemove := false)]
  }

  lemma {:induction false} VisibleGathers(mounts: seq<Mount>, all: MountMap)
    ensures Visible(mounts, all) == Gather(ShownPart(all), mounts)
  {
    hide UnderPruned;
    if mounts != [] {
      VisibleGathers(mounts[..|mounts| - 1], all);
    }
  }

  /** Exactly the mounts from which no chain leads to a pruned one, in their order. */
  lemma VisibleInOrder(mounts: seq<Mount>, all: MountMap) returns (at: seq<nat>)
    ensures var visible := Visible(mounts, all);
      && |at| == |visible| && Increasing(at)
      && forall k | 0 <= k < |at| :: at[k] < |mounts| && visible[k] == mounts[at[k]].(toRemove := false)
    ensures forall i: nat :: i in at <==>
      i < |mounts| && !exists chain :: LeadsToPruned(all, mounts[i].id, chain)
  {
    hide UnderPruned, LeadsToPruned, Gather;
    var f := ShownPart(all);
    VisibleGathers(mounts, all);
    at := GatherPicks(f, mounts);
    forall k | 0 <= k < |at| ensures at[k] < |mounts| && Visible(mounts, all)[k] == mounts[at[k]].(toRemove := false) {
      assert YieldsJust(f, mounts, at[k], Visible(mounts, all)[k]);
      assert at[k] in at;
      assert Yields(f, mounts, at[k]);
    }
    forall i: nat
      ensures i in at <==> i < |mounts| && !exists chain :: LeadsToPruned(all, mounts[i].id, chain)
    {
      assert i in at <==> Yields(f, mounts, i);
      if i < |mounts| {
        UnderPrunedByChain(all, mounts[i].id);
      }
    }
  }

  ghost function Marked(m: Mount, all: MountMap): Mount {
    m.(toRemove := UnderPruned(all, m.id))
  }

  function Unmarked(mounts: seq<Mount>): seq<Mount> {
    if mounts == [] then []
    else
      var r, last := Unmarked(mounts[..|mounts| - 1]), mounts[|mounts| - 1];
      if last.toRemove then r else r + [last]
  }

  lemma UnmarkedSnoc(mounts: seq<Mount>, n: nat)
    requires n < |mounts|
    ensures Unmarked(mounts[..n + 1]) == Unmarked(mounts[..n]) + if mounts[n].toRemove then [] else [mounts[n]]
  {
    assert mounts[..n + 1][..n] == mounts[..n];
  }

  lemma {:induction false} UnmarkedIsVisible(mounts: seq<Mount>, marked: seq<Mount>, all: MountMap)
    requires |marked| == |mounts| && forall i | 0 <= i < |mounts| :: marked[i] == Marked(mounts[i], all)
    ensures Unmarked(marked) == Visible(mounts, all)
  {
    if mounts != [] {
      UnmarkedIsVisible(mounts[..|mounts| - 1], marked[..|mounts| - 1], all);
    }
  }

  lemma NobodyById()
    ensures ById([]) == map[]
  {
  }

  lemma ByIdSnoc(mounts: seq<Mount>, n: nat)
    requires n < |mounts|
    ensures ById(mounts[..n + 1]) == ById(mounts[..n])[mounts[n].id := mounts[n]]
  {
    assert mounts[..n + 1][..n] == mounts[..n];
  }

  class MountTable {
    var entries: seq<Mount>

    constructor (mounts: seq<Mount>)
      ensures entries == mounts
    {
      entries := mounts;
    }

    /** Marks every mount that is pruned or under a pruned one, sharing one cache. */
    method Propagate()
      requires Acyclic(ById(entries))
      modifies this
      ensures |entries| == |old(entries)|
      ensures forall i | 0 <= i < |entries| :: entries[i] == Marked(old(entries[i]), ById(old(entries)))
    {
      hide ById, Acyclic, UnderPruned;
      NobodyById();
      var idToMount: MountMap := map[];
      for i := 0 to |entries|
        invariant entries == old(entries) && idToMount == ById(entries[..i])
      {
        ByIdSnoc(entries, i);
        idToMount := idToMount[entries[i].id := entries[i]];
      }
      TakeAll(entries);
      var cache := new PrunedCache();
      for i := 0 to |entries|
        invariant |entries| == |old(entries)| && fresh(cache) && cache.Correct(idToMount)
        invariant forall k | 0 <= k < i :: entries[k] == Marked(old(entries[k]), idToMount)
        invariant forall k | i <= k < |entries| :: entries[k] == old(entries[k])
      {
        var under := FindWhetherUnderPruned(entries[i].id, idToMount, cache);
        entries := entries[i := entries[i].(toRemove := under)];
      }
    }

    /** Erases the marked mounts while walking over the table. */
    method EraseMarked()
      modifies this
      ensures entries == Unmarked(old(entries))
    {
      var at, seen := 0, 0;
      ghost var all := entries;
      assert all[..0] == [] && entries[0..] == all;
      while at < |entries|
        invariant at <= |entries| && seen <= |all|
        invariant entries[..at] == Unmarked(all[..seen]) && entries[at..] == all[seen..]
        decreases |entries| - at
      {
        UnmarkedSnoc(all, seen);
        assert entries[at] == entries[at..][0] == all[seen..][0] == all[seen];
        if entries[at].toRemove {
          EraseAt(entries, at, all, seen);
          entries := entries[..at] + entries[at + 1..];
        } else {
          KeepAt(entries, at, all, seen);
          at := at + 1;
        }
        seen := seen + 1;
      }
      assert all[seen..] == [];
      assert all[..seen] == all && entries[..at] == entries;
    }

    /** Leaves exactly the mounts that are visible, in their order. */
    method RemovePruned()
      requires Acyclic(ById(entries))
      modifies this
      ensures entries == Visible(old(entries), ById(old(entries)))
    {
      Propagate();
      UnmarkedIsVisible(old(entries), entries, ById(old(entries)));
      EraseMarked();
    }
  }

  lemma EraseAt(now: seq<Mount>, at: nat, all: seq<Mount>, seen: nat)
    requires at < |now| && seen < |all| && now[at..] == all[seen..]
    ensures var next := now[..at] + now[at + 1..]; next[..at] == now[..at] && next[at..] == all[seen + 1..]
  {
    assert now[at + 1..] == now[at..][1..] && all[seen + 1..] == all[seen..][1..];
  }

  lemma KeepAt(now: seq<Mount>, at: nat, all: seq<Mount>, seen: nat)
    requires at < |now| && seen < |all| && now[at..] == all[seen..]
    ensures now[..at + 1] == now[..at] + [now[at]] && now[at + 1..] == all[seen + 1..]
  {
    assert now[at + 1..] == now[at..][1..] && all[seen + 1..] == all[seen..][1..];
  }

  /** A mount that stays visible keeps its parent visible too. */
  lemma VisibleParents(all: MountMap, id: int)
    requires id in all && !UnderPruned(all, id) && all[id].parentId != 0
    ensures !UnderPruned(all, all[id].parentId)
  {
    UnderPrunedByParent(all, id);
  }

  // ---- Bind mounts ----------------------------------------------------------------------------------

  /** m shows a part of what other shows, or the same and was mounted later. */
  predicate Covered(m: Mount, other: Mount) {
    && m.device == other.device && other.id != m.id
    && ((|m.root| > |other.root| && other.root <= m.root) || (m.root == other.root && m.id > other.id))
  }

  ghost predicate IsBindMount(mounts: seq<Mount>, m: Mount) {
    exists i :: 0 <= i < |mounts| && Covered(m, mounts[i])
  }

  /** The mount points of the bind mounts among the first n mounts, each listed once. */
  ghost function BindMountPoints(mounts: seq<Mount>, n: nat): seq<Text>
    requires n <= |mounts|
  {
    if n == 0 then []
    else BindMountPoints(mounts, n - 1) + if IsBindMount(mounts, mounts[n - 1]) then [mounts[n - 1].mountPoint] else []
  }

  ghost function PointOf(mounts: seq<Mount>): Mount -> seq<Text> {
    (m: Mount) => if IsBindMount(mounts, m) then [m.mountPoint] else []
  }

  lemma {:induction false} PointsGather(mounts: seq<Mount>, n: nat)
    requires n <= |mounts|
    ensures BindMountPoints(mounts, n) == Gather(PointOf(mounts), mounts[..n])
  {
    hide IsBindMount, Gather;
    if n == 0 {
      GatherNothing(PointOf(mounts));
    } else {
      PointsGather(mounts, n - 1);
      TakeSnoc(mounts, n - 1);
      GatherSnoc(PointOf(mounts), mounts[..n - 1], mounts[n - 1]);
    }
  }

  /** One mount point for every bind mount, in the order of the table. */
  lemma PointsInOrder(mounts: seq<Mount>) returns (at: seq<nat>)
    ensures var points := BindMountPoints(mounts, |mounts|);
      && |at| == |points| && Increasing(at)
      && forall k | 0 <= k < |at| :: at[k] < |mounts| && points[k] == mounts[at[k]].mountPoint
    ensures forall i: nat :: i in at <==> i < |mounts| && IsBindMount(mounts, mounts[i])
  {
    hide IsBindMount, Gather, BindMountPoints;
    var f, points := PointOf(mounts), BindMountPoints(mounts, |mounts|);
    PointsGather(mounts, |mounts|);
    TakeAll(mounts);
    at := GatherPicks(f, mounts);
    forall k | 0 <= k < |at| ensures at[k] < |mounts| && points[k] == mounts[at[k]].mountPoint {
      assert YieldsJust(f, mounts, at[k], points[k]);
      assert at[k] in at;
      assert Yields(f, mounts, at[k]);
    }
    forall i: nat ensures i in at <==> i < |mounts| && IsBindMount(mounts, mounts[i]) {
      assert i in at <==> Yields(f, mounts, i);
    }
  }

  /** The matching loop. */
  method MatchBindMounts(mounts: seq<Mount>) returns (paths: seq<Text>)
    ensures paths == BindMountPoints(mounts, |mounts|)
  {
    paths := [];
    for i := 0 to |mounts|
      invariant paths == BindMountPoints(mounts, i)
    {
      var entry, found, j := mounts[i], false, 0;
      while j < |mounts| && !found
        invariant 0 <= j <= |mounts|
        invariant found ==> IsBindMount(mounts, entry)
        invariant !found ==> forall k | 0 <= k < j :: !Covered(entry, mounts[k])
        decreases |mounts| - j
      {
        var other := mounts[j];
        if other.device == entry.device && other.id != entry.id {
          if |entry.root| > |other.root| && other.root <= entry.root {
            found := true;
          } else if entry.root == other.root && entry.id > other.id {
            found := true;
          }
        }
        assert found ==> Covered(entry, mounts[j]);
        j := j + 1;
      }
      if found {
        paths := paths + [entry.mountPoint];
      }
    }
  }

  /** Prunes, matches and sorts. */
  method RebuildBindMountPaths(table: MountTable) returns (paths: seq<Text>)
    requires Acyclic(ById(table.entries))
    modifies table
    ensures table.entries == Visible(old(table.entries), ById(old(table.entries)))
    ensures Sorted(paths) && multiset(paths) == multiset(BindMountPoints(table.entries, |table.entries|))
  {
    table.RemovePruned();
    paths := MatchBindMounts(table.entries);
    var list := new Text[|paths|](i requires 0 <= i < |paths| => paths[i]);
    assert list[..] == paths;
    StringListDirPathSort(list);
    paths := list[..];
  }

  // ---- What is left -----------------------------------------------------------------------------------

  /** Among the mounts left on one device no root lies inside another. */
  lemma RemainingRootsAreApart(mounts: seq<Mount>, i: nat, j: nat)
    requires UniqueIds(mounts) && i < |mounts| && j < |mounts| && i != j
    requires mounts[i].device == mounts[j].device
    requires !IsBindMount(mounts, mounts[i]) && !IsBindMount(mounts, mounts[j])
    ensures !(mounts[i].root <= mounts[j].root)
  {
    var a, b := mounts[i], mounts[j];
    assert !Covered(a, b) && !Covered(b, a);
    assert a.id != b.id;
  }

  /** With unique ids, the mounts that are not listed are, on every device, those that show a part that no
      other mount shows more of, and of several that show the same the one with the lowest id. */
  lemma UnlistedIffTopAndLowest(mounts: seq<Mount>, i: nat)
    requires UniqueIds(mounts) && i < |mounts|
    ensures !IsBindMount(mounts, mounts[i]) <==>
      forall j | 0 <= j < |mounts| && j != i ::
        mounts[j].device == mounts[i].device && mounts[j].root <= mounts[i].root ==>
          mounts[j].root == mounts[i].root && mounts[i].id < mounts[j].id
  {
    forall j | 0 <= j < |mounts| && j != i && mounts[j].device == mounts[i].device
      ensures Covered(mounts[i], mounts[j])
        <==> !(mounts[j].root <= mounts[i].root ==> mounts[j].root == mounts[i].root && mounts[i].id < mounts[j].id)
    {
      assert mounts[j].id != mounts[i].id;
    }
  }

  /** m shows all that other shows, and is preferred to it: roots first, then ids. */
  predicate Preferred(m: Mount, other: Mount) {
    m.device == other.device && m.root <= other.root && (|m.root| < |other.root| || m.id < other.id)
  }

  lemma CoveredMeansPreferred(m: Mount, other: Mount)
    ensures Covered(m, other) <==> Preferred(other, m) && other.id != m.id
  {
  }

  /** Among the first n mounts and m there is one that shows m and to which nothing is preferred. */
  lemma {:induction false} TopMost(mounts: seq<Mount>, m: Mount, n: nat) returns (top: Mount)
    requires n <= |mounts|
    ensures top == m || (top in mounts[..n] && Preferred(top, m))
    ensures forall k | 0 <= k < n :: !Preferred(mounts[k], top)
  {
    top := m;
    if n > 0 {
      top := TopMost(mounts, m, n - 1);
      TakeSnoc(mounts, n - 1);
      if Preferred(mounts[n - 1], top) {
        top := mounts[n - 1];
      }
    }
  }

  /** With unique ids, a mount is listed as a bind mount exactly when another mount of its device that is
      not listed shows it: every listed one has such a mount, and no unlisted one does. */
  lemma BindMountIffShownElsewhere(mounts: seq<Mount>, i: nat)
    requires UniqueIds(mounts) && i < |mounts|
    ensures IsBindMount(mounts, mounts[i]) <==>
      exists j :: 0 <= j < |mounts| && j != i && mounts[j].device == mounts[i].device
                  && !IsBindMount(mounts, mounts[j]) && mounts[j].root <= mounts[i].root
  {
    if IsBindMount(mounts, mounts[i]) {
      var top := TopMost(mounts, mounts[i], |mounts|);
      TakeAll(mounts);
      forall k | 0 <= k < |mounts| ensures !Covered(top, mounts[k]) { CoveredMeansPreferred(top, mounts[k]); }
      var j :| 0 <= j < |mounts| && mounts[j] == top;
    } else {
      forall j | 0 <= j < |mounts| && j != i && mounts[j].device == mounts[i].device && !IsBindMount(mounts, mounts[j])
        ensures !(mounts[j].root <= mounts[i].root)
      {
        RemainingRootsAreApart(mounts, j, i);
      }
    }
  }

  // ---- Unique ids -------------------------------------------------------------------------------------

  ghost predicate WithIds(mounts: seq<Mount>, ids: seq<int>) {
    |mounts| == |ids| && forall i | 0 <= i < |ids| :: mounts[i].id == ids[i]
  }

  /** What elimination is for: among the mounts left on a device no root lies inside another. */
  ghost predicate Apart(mounts: seq<Mount>) {
    forall i, j | 0 <= i < |mounts| && 0 <= j < |mounts| && i != j && mounts[i].device == mounts[j].device
      && !IsBindMount(mounts, mounts[i]) && !IsBindMount(mounts, mounts[j]) :: !(mounts[i].root <= mounts[j].root)
  }

  ghost predicate Distinct(ids: seq<int>) {
    forall i, j | 0 <= i < j < |ids| :: ids[i] != ids[j]
  }

  /** Elimination works for all mounts with these ids exactly when the ids are distinct. */
  lemma ApartIffDistinctIds(ids: seq<int>)
    ensures (forall mounts: seq<Mount> | WithIds(mounts, ids) :: Apart(mounts)) <==> Distinct(ids)
  {
    if Distinct(ids) {
      forall mounts: seq<Mount> | WithIds(mounts, ids) ensures Apart(mounts) {
        forall i, j | 0 <= i < |mounts| && 0 <= j < |mounts| && i != j && mounts[i].device == mounts[j].device
            && !IsBindMount(mounts, mounts[i]) && !IsBindMount(mounts, mounts[j])
          ensures !(mounts[i].root <= mounts[j].root)
        {
          RemainingRootsAreApart(mounts, i, j);
        }
      }
    } else {
      var a, b :| 0 <= a < b < |ids| && ids[a] == ids[b];
      SharedIdKeepsBoth(ids, a, b);
    }
  }

  /** Two mounts of one root and one id on a device of their own both remain. */
  lemma SharedIdKeepsBoth(ids: seq<int>, a: nat, b: nat)
    requires a < b < |ids| && ids[a] == ids[b]
    ensures exists mounts: seq<Mount> :: WithIds(mounts, ids) && !Apart(mounts)
  {
    var mounts := seq(|ids|, k requires 0 <= k < |ids| =>
      Mount(ids[k], 0, (if k == b then a else k, 0), [SLASH], [SLASH], false, false, false));
    assert WithIds(mounts, ids);
    assert forall k | 0 <= k < |mounts| :: !Covered(mounts[a], mounts[k]) && !Covered(mounts[b], mounts[k]);
    assert !IsBindMount(mounts, mounts[a]) && !IsBindMount(mounts, mounts[b]);
    assert !Apart(mounts);
  }
}
