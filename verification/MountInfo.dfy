/** From the lines of mountinfo to the list of bind mounts, and the questions asked of that list. */
module MountInfo {
  import opened Bytes
  import opened Sequences
  import opened PathOrder
  import opened PathCursor
  import opened Mounts
  import opened MountField
  import opened MountLine

  /** A line whose leading numbers are read; without four of them it has no more to say. */
  datatype InfoLine = Unnumbered | Numbered(id: int, parentId: int, device: (nat, nat), rest: Text)

  /** What the configuration wants pruned: file system types in capitals, and directories. */
  datatype Pruning = Pruning(fsTypes: seq<Text>, paths: seq<Text>)

  function Capital(c: Byte): Byte {
    if 97 <= c <= 122 then c - 32 else c
  }

  function Capitals(t: Text): (r: Text)
    ensures |r| == |t|
  {
    seq(|t|, i requires 0 <= i < |t| => Capital(t[i]))
  }

  /** t is a word in capitals. */
  predicate CapitalsOf(t: Text, word: Text) {
    |t| == |word| && forall k | 0 <= k < |t| :: t[k] as int == word[k] as int - if 97 <= word[k] <= 122 then 32 else 0
  }

  lemma CapitalsAreUnique(t: Text, word: Text)
    ensures CapitalsOf(t, word) <==> t == Capitals(word)
  {
    assert CapitalsOf(Capitals(word), word);
    if CapitalsOf(t, word) {
      forall k | 0 <= k < |t| ensures t[k] == Capitals(word)[k] {}
    }
  }

  function MountOf(id: int, parentId: int, device: (nat, nat), f: MountFields, pruning: Pruning): Mount {
    Mount(id, parentId, device, f.root, f.mountPoint, Capitals(f.fsType) in pruning.fsTypes,
          CString(f.mountPoint) in pruning.paths, false)
  }

  datatype Entry = NoEntry | Entry(mount: Mount)

  function EntryOf(l: InfoLine, pruning: Pruning): Entry {
    if l.Unnumbered? then NoEntry
    else
      var line := ParseHead(l.rest);
      if line.Malformed? then NoEntry else Entry(MountOf(l.id, l.parentId, l.device, line.fields, pruning))
  }

  /** The mount has these numbers and fields; it is to be pruned for its type if the configuration names that in
      capitals, and for its path if it names the mount point. */
  ghost predicate Holds(m: Mount, l: InfoLine, f: MountFields, pruning: Pruning)
    requires l.Numbered?
  {
    && m.id == l.id && m.parentId == l.parentId && m.device == l.device
    && m.root == f.root && m.mountPoint == f.mountPoint && !m.toRemove
    && (m.prunedDueToPath <==> CString(f.mountPoint) in pruning.paths)
    && (m.prunedDueToFsType <==> exists i :: 0 <= i < |pruning.fsTypes| && CapitalsOf(pruning.fsTypes[i], f.fsType))
  }

  lemma EntryHolds(l: InfoLine, f: MountFields, pruning: Pruning)
    requires l.Numbered?
    ensures Holds(MountOf(l.id, l.parentId, l.device, f, pruning), l, f, pruning)
  {
    hide Capitals, CapitalsOf;
    forall i | 0 <= i < |pruning.fsTypes|
      ensures CapitalsOf(pruning.fsTypes[i], f.fsType) <==> pruning.fsTypes[i] == Capitals(f.fsType)
    {
      CapitalsAreUnique(pruning.fsTypes[i], f.fsType);
    }
  }

  /** The mounts of the lines before the first one that cannot be read. */
  function MountsOf(lines: seq<InfoLine>, pruning: Pruning): seq<Mount> {
    if lines == [] || EntryOf(lines[0], pruning).NoEntry? then []
    else [EntryOf(lines[0], pruning).mount] + MountsOf(lines[1..], pruning)
  }

  /** The reading goes on to the first line that cannot be read, and no further. */
  lemma {:induction false} StopsAtUnreadable(lines: seq<InfoLine>, bad: InfoLine, rest: seq<InfoLine>, pruning: Pruning)
    requires forall i | 0 <= i < |lines| :: lines[i].Numbered? && ParseHead(lines[i].rest).Line?
    requires bad.Unnumbered? || ParseHead(bad.rest).Malformed?
    ensures MountsOf(lines + [bad] + rest, pruning) == MountsOf(lines, pruning)
    ensures |MountsOf(lines, pruning)| == |lines|
    ensures forall i | 0 <= i < |lines| ::
      Holds(MountsOf(lines, pruning)[i], lines[i], ParseHead(lines[i].rest).fields, pruning)
  {
    hide ParseHead, MountOf, Holds;
    if lines == [] {
      assert lines + [bad] + rest == [bad] + rest;
    } else {
      assert (lines + [bad] + rest)[1..] == lines[1..] + [bad] + rest;
      StopsAtUnreadable(lines[1..], bad, rest, pruning);
      EntryHolds(lines[0], ParseHead(lines[0].rest).fields, pruning);
    }
  }

  method ReadEntry(l: InfoLine, pruning: Pruning) returns (r: Entry)
    ensures r == EntryOf(l, pruning)
    ensures r.Entry? <==> l.Numbered? && ParseHead(l.rest).Line?
    ensures r.Entry? ==> Holds(r.mount, l, ParseHead(l.rest).fields, pruning)
  {
    hide ParseHead, Capitals, CString, Holds;
    if l.Unnumbered? {
      return NoEntry;
    }
    assert l.rest[0..] == l.rest && pruning.paths[0..] == pruning.paths;
    var line := ReadMountEntry(l.rest, 0);
    if line.Malformed? {
      return NoEntry;
    }
    var f := line.fields;
    EntryHolds(l, f, pruning);
    var underPath, cursor := StringListContainsDirPath(pruning.paths, 0, CString(f.mountPoint));
    return Entry(Mount(l.id, l.parentId, l.device, f.root, f.mountPoint, Capitals(f.fsType) in pruning.fsTypes,
                       underPath, false));
  }

  // ---- The table, ordered by device -----------------------------------------------------------------

  predicate DeviceBefore(a: (nat, nat), b: (nat, nat)) {
    a.0 < b.0 || (a.0 == b.0 && a.1 < b.1)
  }

  /** `emplace` of a multimap: behind all entries of the same device. */
  function Emplace(mounts: seq<Mount>, m: Mount): seq<Mount> {
    if mounts == [] || !DeviceBefore(m.device, mounts[|mounts| - 1].device) then mounts + [m]
    else Emplace(mounts[..|mounts| - 1], m) + [mounts[|mounts| - 1]]
  }

  function ByDevice(mounts: seq<Mount>): seq<Mount> {
    if mounts == [] then [] else Emplace(ByDevice(mounts[..|mounts| - 1]), mounts[|mounts| - 1])
  }

  predicate AtMost(a: (nat, nat), b: (nat, nat)) {
    a.0 < b.0 || (a.0 == b.0 && a.1 <= b.1)
  }

  ghost predicate Ordered(mounts: seq<Mount>) {
    forall i, j | 0 <= i < j < |mounts| :: AtMost(mounts[i].device, mounts[j].device)
  }

  lemma {:induction false} EmplaceKeepsOrder(mounts: seq<Mount>, m: Mount)
    requires Ordered(mounts)
    ensures Ordered(Emplace(mounts, m))
    ensures forall x | x in Emplace(mounts, m) :: x in mounts || x == m
  {
    if mounts != [] && DeviceBefore(m.device, mounts[|mounts| - 1].device) {
      var front, last := mounts[..|mounts| - 1], mounts[|mounts| - 1];
      EmplaceKeepsOrder(front, m);
      forall i | 0 <= i < |Emplace(front, m)| ensures AtMost(Emplace(front, m)[i].device, last.device) {
        assert Emplace(front, m)[i] in Emplace(front, m);
      }
    }
  }

  /** The table is ordered by device, major number first ... */
  lemma {:induction false} ByDeviceIsOrdered(mounts: seq<Mount>)
    ensures Ordered(ByDevice(mounts))
  {
    hide Emplace;
    if mounts != [] {
      ByDeviceIsOrdered(mounts[..|mounts| - 1]);
      EmplaceKeepsOrder(ByDevice(mounts[..|mounts| - 1]), mounts[|mounts| - 1]);
    }
  }

  function OnDevice(device: (nat, nat)): Mount -> seq<Mount> {
    (m: Mount) => if m.device == device then [m] else []
  }

  lemma {:induction false} EmplaceOnDevice(mounts: seq<Mount>, m: Mount, device: (nat, nat))
    requires Ordered(mounts)
    ensures Gather(OnDevice(device), Emplace(mounts, m)) == Gather(OnDevice(device), mounts) + OnDevice(device)(m)
  {
    hide Gather;
    var f := OnDevice(device);
    if mounts == [] || !DeviceBefore(m.device, mounts[|mounts| - 1].device) {
      GatherSnoc(f, mounts, m);
    } else {
      var front, last := mounts[..|mounts| - 1], mounts[|mounts| - 1];
      assert mounts == front + [last];
      EmplaceOnDevice(front, m, device);
      GatherSnoc(f, Emplace(front, m), last);
      GatherSnoc(f, front, last);
      assert f(last) == [] || f(m) == [];
    }
  }

  /** ... and keeps the entries of every device in the order in which they were read. */
  lemma {:induction false} ByDeviceKeepsOrder(mounts: seq<Mount>, device: (nat, nat))
    ensures Gather(OnDevice(device), ByDevice(mounts)) == Gather(OnDevice(device), mounts)
  {
    hide Emplace, Gather, OnDevice;
    if mounts != [] {
      var front, last := mounts[..|mounts| - 1], mounts[|mounts| - 1];
      assert mounts == front + [last];
      ByDeviceKeepsOrder(front, device);
      ByDeviceIsOrdered(front);
      EmplaceOnDevice(ByDevice(front), last, device);
      GatherSnoc(OnDevice(device), front, last);
    }
  }

  lemma ByDeviceSnoc(mounts: seq<Mount>, m: Mount)
    ensures ByDevice(mounts + [m]) == Emplace(ByDevice(mounts), m)
  {
    assert (mounts + [m])[..|mounts|] == mounts;
  }

  lemma {:induction false} EmplaceAdds(mounts: seq<Mount>, m: Mount)
    ensures multiset(Emplace(mounts, m)) == multiset(mounts) + multiset{m}
  {
    if mounts != [] && DeviceBefore(m.device, mounts[|mounts| - 1].device) {
      EmplaceAdds(mounts[..|mounts| - 1], m);
      assert mounts == mounts[..|mounts| - 1] + [mounts[|mounts| - 1]];
    }
  }

  /** Grouping by device loses no mount and adds none. */
  lemma {:induction false} ByDevicePermutes(mounts: seq<Mount>)
    ensures multiset(ByDevice(mounts)) == multiset(mounts)
  {
    hide Emplace;
    if mounts != [] {
      ByDevicePermutes(mounts[..|mounts| - 1]);
      EmplaceAdds(ByDevice(mounts[..|mounts| - 1]), mounts[|mounts| - 1]);
      assert mounts == mounts[..|mounts| - 1] + [mounts[|mounts| - 1]];
    }
  }

  lemma OneMoreLine(lines: seq<InfoLine>, i: nat, pruning: Pruning)
    requires i < |lines|
    ensures MountsOf(lines[i..], pruning) == if EntryOf(lines[i], pruning).NoEntry? then []
      else [EntryOf(lines[i], pruning).mount] + MountsOf(lines[i + 1..], pruning)
  {
    hide EntryOf;
    assert lines[i..][0] == lines[i] && lines[i..][1..] == lines[i + 1..];
  }

  /** Reads entries until there is one that cannot be read. */
  method ReadMountEntries(lines: seq<InfoLine>, pruning: Pruning) returns (mounts: seq<Mount>)
    ensures mounts == ByDevice(MountsOf(lines, pruning))
  {
    hide EntryOf, MountsOf, Emplace, ByDevice;
    ghost var done: seq<Mount> := [];
    NoMounts();
    mounts := [];
    assert lines[0..] == lines && [] + MountsOf(lines, pruning) == MountsOf(lines, pruning);
    var i := 0;
    while i < |lines|
      invariant i <= |lines| && mounts == ByDevice(done)
      invariant MountsOf(lines, pruning) == done + MountsOf(lines[i..], pruning)
    {
      OneMoreLine(lines, i, pruning);
      var e := ReadEntry(lines[i], pruning);
      if e.NoEntry? {
        assert done + [] == done;
        return;
      }
      ByDeviceSnoc(done, e.mount);
      mounts := Emplace(mounts, e.mount);
      ghost var rest := MountsOf(lines[i + 1..], pruning);
      assert done + ([e.mount] + rest) == done + [e.mount] + rest;
      done := done + [e.mount];
      i := i + 1;
    }
    NoLines(lines[i..], pruning);
    assert done + [] == done;
  }

  lemma NoMounts()
    ensures ByDevice([]) == []
  {
  }

  lemma NoLines(lines: seq<InfoLine>, pruning: Pruning)
    requires lines == []
    ensures MountsOf(lines, pruning) == []
  {
  }

  // ---- The list of bind mounts ----------------------------------------------------------------------

  /** The mount points of the bind mounts among those that are not pruned. */
  ghost function BindMountsIn(mounts: seq<Mount>): seq<Text> {
    var shown := Visible(mounts, ById(mounts));
    BindMountPoints(shown, |shown|)
  }

  /** What becomes of the lines once they are read. */
  method ListBindMounts(lines: seq<InfoLine>, pruning: Pruning) returns (paths: seq<Text>)
    requires Acyclic(ById(ByDevice(MountsOf(lines, pruning))))
    ensures Sorted(paths) && multiset(paths) == multiset(BindMountsIn(ByDevice(MountsOf(lines, pruning))))
  {
    hide Acyclic, Visible, BindMountPoints, Sorted;
    var mounts := ReadMountEntries(lines, pruning);
    var table := new MountTable(mounts);
    paths := RebuildBindMountPaths(table);
  }

  /** What is kept between two questions: the list, a cursor into it, and whether mounts have changed. */
  class BindMount {
    var bindMountPaths: seq<Text>
    var index: nat
    var updated: bool

    constructor ()
      ensures bindMountPaths == [] && index == 0 && !updated
    {
      bindMountPaths, index, updated := [], 0, false;
    }

    /** The guard is the one in the source: a file that could be opened is not read, and the list stays as
        it was.  lines is what the stream yields otherwise. */
    method Rebuild(isOpen: bool, lines: seq<InfoLine>, pruning: Pruning)
      requires !isOpen ==> Acyclic(ById(ByDevice(MountsOf(lines, pruning))))
      modifies this`bindMountPaths
      ensures isOpen ==> bindMountPaths == old(bindMountPaths)
      ensures !isOpen ==>
        Sorted(bindMountPaths) && multiset(bindMountPaths) == multiset(BindMountsIn(ByDevice(MountsOf(lines, pruning))))
    {
      if isOpen {
        return;
      }
      bindMountPaths := ListBindMounts(lines, pruning);
    }

    /** Rebuilds the list first if the mounts have changed.  As long as the file can be opened, nothing is
        ever found. */
    method IsBindMount(path: Text, isOpen: bool, lines: seq<InfoLine>, pruning: Pruning) returns (r: bool)
      requires updated && !isOpen ==> Acyclic(ById(ByDevice(MountsOf(lines, pruning))))
      modifies this
      ensures !updated
      ensures isOpen || !old(updated) ==> bindMountPaths == old(bindMountPaths)
      ensures !isOpen && old(updated) ==>
        Sorted(bindMountPaths) && multiset(bindMountPaths) == multiset(BindMountsIn(ByDevice(MountsOf(lines, pruning))))
      ensures var from := if old(updated) then 0 else old(index);
        from <= |bindMountPaths| ==>
          r == (path in bindMountPaths[from..]) && index == After(bindMountPaths, Seek(bindMountPaths, from, path))
      ensures !old(updated) && old(index) > |bindMountPaths| ==> !r && index == old(index)
      ensures isOpen && old(bindMountPaths) == [] ==> !r && bindMountPaths == []
    {
      hide Acyclic, ById, ByDevice, MountsOf, BindMountsIn, Sorted, Seek;
      if updated {
        updated := false;
        Rebuild(isOpen, lines, pruning);
        index := 0;
      }
      r, index := StringListContainsDirPath(bindMountPaths, index, path);
    }
  }

  /** A list that is never filled answers rightly exactly when no bind mount is asked for. */
  lemma NeverFilledIsRightIffNoneAsked(bindMounts: seq<Text>, queries: seq<Text>)
    ensures Answers([], 0, queries) == Truth(bindMounts, queries)
      <==> forall i | 0 <= i < |queries| :: queries[i] !in bindMounts
  {
    AtTheEnd([], queries);
    if Answers([], 0, queries) == Truth(bindMounts, queries) {
      forall i | 0 <= i < |queries| ensures queries[i] !in bindMounts {
        assert Truth(bindMounts, queries)[i] == false;
      }
    }
  }

  // ---- The order of the table does not matter -------------------------------------------------------

  lemma SameBindMounts(a: seq<Mount>, b: seq<Mount>, m: Mount)
    requires multiset(a) == multiset(b)
    ensures IsBindMount(a, m) ==> IsBindMount(b, m)
  {
    if IsBindMount(a, m) {
      var i :| 0 <= i < |a| && Covered(m, a[i]);
      assert a[i] in multiset(b);
      var j :| 0 <= j < |b| && b[j] == a[i];
    }
  }

  lemma PointsPermuted(a: seq<Mount>, b: seq<Mount>)
    requires multiset(a) == multiset(b)
    ensures multiset(BindMountPoints(a, |a|)) == multiset(BindMountPoints(b, |b|))
  {
    hide Gather, IsBindMount, BindMountPoints;
    PointsGather(a, |a|);
    PointsGather(b, |b|);
    TakeAll(a);
    TakeAll(b);
    forall m ensures PointOf(a)(m) == PointOf(b)(m) {
      SameBindMounts(a, b, m);
      SameBindMounts(b, a, m);
    }
    GatherAlike(PointOf(a), PointOf(b), b);
    GatherPermuted(PointOf(a), a, b);
  }

  lemma IdsAreOther(front: seq<Mount>, last: Mount, m: Mount)
    requires UniqueIds(front + [last] + [m])
    ensures UniqueIds(front + [m]) && m.id != last.id && forall k | 0 <= k < |front| :: front[k].id != last.id
  {
    var all, n := front + [last] + [m], |front|;
    assert all[n] == last && all[n + 1] == m && forall k | 0 <= k < n :: all[k] == front[k];
  }

  lemma {:induction false} EmplaceKeepsIds(mounts: seq<Mount>, m: Mount)
    requires UniqueIds(mounts + [m])
    ensures UniqueIds(Emplace(mounts, m))
  {
    var n := |mounts| - 1;
    if mounts != [] && DeviceBefore(m.device, mounts[n].device) {
      var front, last := mounts[..n], mounts[n];
      assert mounts == front + [last];
      IdsAreOther(front, last, m);
      EmplaceKeepsIds(front, m);
      EmplaceAdds(front, m);
      forall k | 0 <= k < |Emplace(front, m)| ensures Emplace(front, m)[k].id != last.id {
        assert Emplace(front, m)[k] in multiset(front) + multiset{m};
      }
    }
  }

  lemma {:induction false} ByDeviceKeepsIds(mounts: seq<Mount>)
    requires UniqueIds(mounts)
    ensures UniqueIds(ByDevice(mounts))
  {
    if mounts != [] {
      var front, last := mounts[..|mounts| - 1], mounts[|mounts| - 1];
      ByDeviceKeepsIds(front);
      ByDevicePermutes(front);
      forall k | 0 <= k < |ByDevice(front)| ensures ByDevice(front)[k].id != last.id {
        assert ByDevice(front)[k] in multiset(front);
      }
      EmplaceKeepsIds(ByDevice(front), last);
    }
  }

  lemma SameById(a: seq<Mount>, b: seq<Mount>)
    requires UniqueIds(a) && UniqueIds(b) && multiset(a) == multiset(b)
    ensures ById(a) == ById(b)
  {
    forall i | 0 <= i < |a| ensures a[i].id in ById(b) && ById(b)[a[i].id] == a[i] == ById(a)[a[i].id] {
      assert a[i] in multiset(b);
      var j :| 0 <= j < |b| && b[j] == a[i];
      ByIdIsLast(a, i);
      ByIdIsLast(b, j);
    }
    forall i | 0 <= i < |b| ensures b[i].id in ById(a) {
      assert b[i] in multiset(a);
      var j :| 0 <= j < |a| && a[j] == b[i];
    }
  }

  /** With unique ids, grouping the mounts by device changes nothing about which of them are listed. */
  lemma OrderDoesNotMatter(mounts: seq<Mount>)
    requires UniqueIds(mounts)
    ensures ById(ByDevice(mounts)) == ById(mounts)
    ensures multiset(BindMountsIn(ByDevice(mounts))) == multiset(BindMountsIn(mounts))
  {
    hide ById, Visible, BindMountPoints, ByDevice, UniqueIds, Gather;
    var table := ByDevice(mounts);
    ByDevicePermutes(mounts);
    ByDeviceKeepsIds(mounts);
    SameById(table, mounts);
    VisibleGathers(table, ById(mounts));
    VisibleGathers(mounts, ById(mounts));
    GatherPermuted(ShownPart(ById(mounts)), table, mounts);
    PointsPermuted(Visible(table, ById(mounts)), Visible(mounts, ById(mounts)));
  }

  // ---- From the kernel's listing --------------------------------------------------------------------

  /** A mount as the kernel lists it. */
  datatype Info = Info(id: int, parentId: int, device: (nat, nat), fields: MountFields, mountOptions: Text,
                       options: seq<Text>, superOptions: Text)

  /** No field is empty or holds a NUL, and no optional field is a lone dash. */
  predicate Listable(info: Info) {
    var m := info.fields;
    && (forall f
          | f in [m.root, m.mountPoint, m.fsType, m.source, info.mountOptions, info.superOptions] + info.options ::
          f != [] && 0 !in f)
    && [45] !in info.options
  }

  function LineOf(info: Info, escaped: set<Byte>): InfoLine {
    var f := info.fields;
    Numbered(info.id, info.parentId, info.device,
             Render([f.root, f.mountPoint, info.mountOptions] + info.options + [[45]]
                    + [f.fsType, f.source, info.superOptions], escaped))
  }

  function Listing(infos: seq<Info>, escaped: set<Byte>): (r: seq<InfoLine>)
    ensures |r| == |infos| && forall i | 0 <= i < |infos| :: r[i] == LineOf(infos[i], escaped)
  {
    seq(|infos|, i requires 0 <= i < |infos| => LineOf(infos[i], escaped))
  }

  function MountsIn(infos: seq<Info>, pruning: Pruning): (r: seq<Mount>)
    ensures |r| == |infos|
    ensures forall i | 0 <= i < |infos| ::
      r[i] == MountOf(infos[i].id, infos[i].parentId, infos[i].device, infos[i].fields, pruning)
  {
    seq(|infos|, i requires 0 <= i < |infos| =>
      MountOf(infos[i].id, infos[i].parentId, infos[i].device, infos[i].fields, pruning))
  }

  lemma LineIsRead(info: Info, escaped: set<Byte>, pruning: Pruning)
    requires EnoughEscaped(escaped) && Listable(info)
    ensures EntryOf(LineOf(info, escaped), pruning)
      == Entry(MountOf(info.id, info.parentId, info.device, info.fields, pruning))
  {
    hide Render, EnoughEscaped, ParseHead, MountOf;
    var line := LineOf(info, escaped).rest;
    LineRoundTrip(info.fields, info.mountOptions, info.options, info.superOptions, escaped, []);
    assert line + [] == line;
  }

  lemma {:induction false} MountsAreRead(infos: seq<Info>, escaped: set<Byte>, pruning: Pruning)
    requires EnoughEscaped(escaped) && forall i | 0 <= i < |infos| :: Listable(infos[i])
    ensures MountsOf(Listing(infos, escaped), pruning) == MountsIn(infos, pruning)
  {
    hide LineOf, MountOf, EntryOf, Listable, EnoughEscaped;
    if infos == [] {
      NoLines(Listing(infos, escaped), pruning);
    } else {
      LineIsRead(infos[0], escaped, pruning);
      MountsAreRead(infos[1..], escaped, pruning);
      assert Listing(infos, escaped)[1..] == Listing(infos[1..], escaped);
      assert MountsIn(infos, pruning) == [MountsIn(infos, pruning)[0]] + MountsIn(infos[1..], pruning);
    }
  }

  /** The mount is the one listed, field by field, and is to be pruned for its type if the configuration names
      that in capitals, and for its path if it names the mount point. */
  ghost predicate IsListed(m: Mount, info: Info, pruning: Pruning) {
    && m.id == info.id && m.parentId == info.parentId && m.device == info.device
    && m.root == info.fields.root && m.mountPoint == info.fields.mountPoint && !m.toRemove
    && (m.prunedDueToPath <==> info.fields.mountPoint in pruning.paths)
    && (m.prunedDueToFsType <==>
          exists i :: 0 <= i < |pruning.fsTypes| && CapitalsOf(pruning.fsTypes[i], info.fields.fsType))
  }

  lemma MountIsListed(info: Info, escaped: set<Byte>, pruning: Pruning)
    requires Listable(info)
    ensures IsListed(MountOf(info.id, info.parentId, info.device, info.fields, pruning), info, pruning)
  {
    hide Capitals, CapitalsOf, Render;
    var m := info.fields;
    assert m.mountPoint
        in [m.root, m.mountPoint, m.fsType, m.source, info.mountOptions, info.superOptions] + info.options;
    CStringWithoutNul(m.mountPoint);
    EntryHolds(LineOf(info, escaped), info.fields, pruning);
  }

  /** Every mount of a listing is read back, in order, with every field as it was listed. */
  lemma ListingIsRead(infos: seq<Info>, escaped: set<Byte>, pruning: Pruning)
    requires EnoughEscaped(escaped) && forall i | 0 <= i < |infos| :: Listable(infos[i])
    ensures var read := MountsOf(Listing(infos, escaped), pruning);
      |read| == |infos| && forall i | 0 <= i < |infos| :: IsListed(read[i], infos[i], pruning)
  {
    hide Listable, EnoughEscaped, IsListed, MountOf;
    MountsAreRead(infos, escaped, pruning);
    forall i | 0 <= i < |infos| ensures IsListed(MountsIn(infos, pruning)[i], infos[i], pruning) {
      MountIsListed(infos[i], escaped, pruning);
    }
  }

  /** Whatever strings the fields of the mounts hold: from the escaped lines of a listing exactly those
      mount points are collected whose mount is a bind mount among the mounts that are not pruned. */
  lemma ListingToBindMounts(infos: seq<Info>, escaped: set<Byte>, pruning: Pruning)
    requires EnoughEscaped(escaped) && forall i | 0 <= i < |infos| :: Listable(infos[i])
    requires UniqueIds(MountsIn(infos, pruning))
    ensures var read, mounts := ByDevice(MountsOf(Listing(infos, escaped), pruning)), MountsIn(infos, pruning);
      && (Acyclic(ById(read)) <==> Acyclic(ById(mounts)))
      && multiset(BindMountsIn(read)) == multiset(BindMountsIn(mounts))
  {
    hide BindMountsIn, ById, ByDevice, Acyclic, MountsOf, UniqueIds, Listable, EnoughEscaped;
    MountsAreRead(infos, escaped, pruning);
    OrderDoesNotMatter(MountsIn(infos, pruning));
  }
}
