/** A whole mountinfo line behind the four numbers: fixed fields, any number of optional fields up to a
    lone dash, and three more fields. */
module MountLine {
  import opened Bytes
  import opened MountField

  const DASH: Text := [45]

  datatype MountFields = MountFields(root: Text, mountPoint: Text, fsType: Text, source: Text)

  datatype Line = Malformed | Line(fields: MountFields)

  /** A string as C sees it: it ends at the first NUL. */
  function CString(t: Text): Text {
    if t == [] || t[0] == 0 then [] else [t[0]] + CString(t[1..])
  }

  /** What stands in front of the first NUL. */
  lemma {:induction false} CStringStopsAtNul(t: Text, rest: Text)
    requires 0 !in t
    ensures CString(t + [0] + rest) == t
  {
    var s := t + [0] + rest;
    if t != [] {
      assert s[1..] == t[1..] + [0] + rest && s[0] == t[0] && t[0] in t;
      CStringStopsAtNul(t[1..], rest);
    }
  }

  lemma {:induction false} CStringWithoutNul(t: Text)
    requires 0 !in t
    ensures CString(t) == t
  {
    if t != [] {
      assert t == [t[0]] + t[1..];
      CStringWithoutNul(t[1..]);
    }
  }

  /** The field that is a lone dash; optional fields before it are skipped. */
  function FindSeparator(t: Text): (f: Field)
    ensures f.Field? ==> |f.rest| < |t|
    decreases |t|
  {
    var f := ParseField(t);
    if f.NoField? || CString(f.value) == DASH then f else FindSeparator(f.rest)
  }

  function ParseHead(t: Text): Line {
    var root := ParseField(t);
    if root.NoField? then Malformed
    else
      var mountPoint := ParseField(root.rest);
      if mountPoint.NoField? then Malformed
      else
        var options := ParseField(mountPoint.rest);
        if options.NoField? then Malformed
        else
          var separator := FindSeparator(options.rest);
          if separator.NoField? then Malformed else ParseTail(root.value, mountPoint.value, separator.rest)
  }

  function ParseTail(root: Text, mountPoint: Text, t: Text): Line {
    var fsType := ParseField(t);
    if fsType.NoField? then Malformed
    else
      var source := ParseField(fsType.rest);
      if source.NoField? || ParseField(source.rest).NoField? then Malformed
      else Line(MountFields(root, mountPoint, fsType.value, source.value))
  }

  /** Fails as soon as a field is missing. */
  method ReadMountEntry(line: Text, cursor: nat) returns (r: Line)
    requires cursor <= |line|
    ensures r == ParseHead(line[cursor..])
  {
    hide ParseField;
    var ok, root, at := ParseMountString(line, cursor);
    if !ok {
      return Malformed;
    }
    var mountPoint, options;
    ok, mountPoint, at := ParseMountString(line, at);
    if !ok {
      return Malformed;
    }
    ok, options, at := ParseMountString(line, at);
    if !ok {
      return Malformed;
    }
    ok, at := SeekSeparator(line, at);
    if !ok {
      return Malformed;
    }
    r := ReadTail(line, at, root, mountPoint);
  }

  method SeekSeparator(line: Text, cursor: nat) returns (ok: bool, at: nat)
    requires cursor <= |line|
    ensures at <= |line| && ok == FindSeparator(line[cursor..]).Field?
    ensures ok ==> line[at..] == FindSeparator(line[cursor..]).rest
  {
    hide ParseField;
    at := cursor;
    var found := false;
    while !found
      invariant at <= |line|
      invariant !found ==> FindSeparator(line[at..]) == FindSeparator(line[cursor..])
      invariant found ==> FindSeparator(line[cursor..]).Field? && FindSeparator(line[cursor..]).rest == line[at..]
      decreases !found, |line| - at
    {
      var option;
      ghost var before := at;
      ok, option, at := ParseMountString(line, at);
      if !ok {
        return;
      }
      assert ParseField(line[before..]) == Field(option, line[at..]);
      found := CString(option) == DASH;
    }
    ok := true;
  }

  method ReadTail(line: Text, cursor: nat, root: Text, mountPoint: Text) returns (r: Line)
    requires cursor <= |line|
    ensures r == ParseTail(root, mountPoint, line[cursor..])
  {
    hide ParseField;
    var ok, fsType, at := ParseMountString(line, cursor);
    if !ok {
      return Malformed;
    }
    var source, superOptions;
    ok, source, at := ParseMountString(line, at);
    if !ok {
      return Malformed;
    }
    ok, superOptions, at := ParseMountString(line, at);
    if !ok {
      return Malformed;
    }
    return Line(MountFields(root, mountPoint, fsType, source));
  }

  // ---- Round trip -------------------------------------------------------------------------------------

  /** Fields written one behind the other, each with a leading blank. */
  function Render(fields: seq<Text>, escaped: set<Byte>): Text {
    if fields == [] then [] else [SPACE] + Escape(fields[0], escaped) + Render(fields[1..], escaped)
  }

  /** A blank, the bytes of the field, and then the rest, if nothing in the field is to be escaped. */
  lemma RenderPlain(f: Text, more: seq<Text>, escaped: set<Byte>)
    requires forall i | 0 <= i < |f| :: f[i] !in escaped
    ensures Render([f] + more, escaped) == [32] + f + Render(more, escaped)
  {
    EscapeOfLiterals(f, escaped);
    assert ([f] + more)[1..] == more;
  }

  predicate Writable(f: Text) {
    f != [] && 0 !in f
  }

  lemma RenderedField(f: Text, more: seq<Text>, escaped: set<Byte>, end: Text)
    requires EnoughEscaped(escaped) && Writable(f) && EndsField(CharAt(end, 0))
    ensures ParseField(Render([f] + more, escaped) + end) == Field(f, Render(more, escaped) + end)
  {
    hide ParseField, Escape;
    assert ([f] + more)[1..] == more;
    var rest := Render(more, escaped) + end;
    assert CharAt(rest, 0) == if more == [] then CharAt(end, 0) else SPACE;
    ParseOfEscaped([SPACE], f, escaped, rest);
    assert [SPACE] + Escape(f, escaped) + rest == Render([f] + more, escaped) + end;
  }

  lemma {:induction false} SeparatorAfterOptions(options: seq<Text>, more: seq<Text>, escaped: set<Byte>, end: Text)
    requires EnoughEscaped(escaped) && EndsField(CharAt(end, 0))
    requires forall i | 0 <= i < |options| :: Writable(options[i]) && options[i] != DASH
    ensures FindSeparator(Render(options + [DASH] + more, escaped) + end) == Field(DASH, Render(more, escaped) + end)
  {
    hide ParseField, Render, EnoughEscaped;
    if options == [] {
      assert options + [DASH] + more == [DASH] + more;
      RenderedField(DASH, more, escaped, end);
      CStringWithoutNul(DASH);
    } else {
      var rest := options[1..] + [DASH] + more;
      assert options + [DASH] + more == [options[0]] + rest;
      RenderedField(options[0], rest, escaped, end);
      CStringWithoutNul(options[0]);
      SeparatorAfterOptions(options[1..], more, escaped, end);
    }
  }

  /** Whatever strings stand in the fields, and whatever optional fields there are, root, mount point,
      type and source are read back as they were. */
  lemma LineRoundTrip(m: MountFields, mountOptions: Text, options: seq<Text>, superOptions: Text, escaped: set<Byte>,
                      end: Text)
    requires EnoughEscaped(escaped) && EndsField(CharAt(end, 0))
    requires forall f | f in [m.root, m.mountPoint, m.fsType, m.source, mountOptions, superOptions] + options ::
      f != [] && 0 !in f
    requires [45] !in options
    ensures var fields := [m.root, m.mountPoint, mountOptions] + options + [[45]] + [m.fsType, m.source, superOptions];
      ParseHead(Render(fields, escaped) + end) == Line(m)
  {
    hide ParseField, Render, EnoughEscaped, FindSeparator;
    var six := [m.root, m.mountPoint, m.fsType, m.source, mountOptions, superOptions];
    var tail := [m.fsType, m.source, superOptions];
    assert forall i | 0 <= i < 6 :: (six + options)[i] == six[i];
    assert six[0] == m.root && six[1] == m.mountPoint && six[2] == m.fsType && six[3] == m.source;
    assert six[4] == mountOptions && six[5] == superOptions;
    forall i | 0 <= i < |options| ensures Writable(options[i]) && options[i] != DASH {
      assert options[i] in options && options[i] in six + options;
    }
    var three := options + [DASH] + tail;
    assert [m.root, m.mountPoint, mountOptions] + options + [DASH] + tail
        == [m.root] + ([m.mountPoint] + ([mountOptions] + three));
    RenderedField(m.root, [m.mountPoint] + ([mountOptions] + three), escaped, end);
    RenderedField(m.mountPoint, [mountOptions] + three, escaped, end);
    RenderedField(mountOptions, three, escaped, end);
    SeparatorAfterOptions(options, tail, escaped, end);
    assert tail == [m.fsType] + ([m.source] + ([superOptions] + []));
    RenderedField(m.fsType, [m.source] + ([superOptions] + []), escaped, end);
    RenderedField(m.source, [superOptions] + [], escaped, end);
    RenderedField(superOptions, [], escaped, end);
  }

  // ---- Which lines are read ---------------------------------------------------------------------------

  lemma NextField(fs: seq<Text>, escaped: set<Byte>, end: Text)
    requires EnoughEscaped(escaped) && (end == [] || end[0] == 0) && forall i | 0 <= i < |fs| :: Writable(fs[i])
    ensures ParseField(Render(fs, escaped) + end)
      == if fs == [] then NoField else Field(fs[0], Render(fs[1..], escaped) + end)
  {
    if fs == [] {
      assert Render(fs, escaped) + end == end;
    } else {
      assert fs == [fs[0]] + fs[1..];
      RenderedField(fs[0], fs[1..], escaped, end);
    }
  }

  lemma {:induction false} NoSeparator(fs: seq<Text>, escaped: set<Byte>, end: Text)
    requires EnoughEscaped(escaped) && (end == [] || end[0] == 0) && forall i | 0 <= i < |fs| :: Writable(fs[i])
    requires [45] !in fs
    ensures FindSeparator(Render(fs, escaped) + end) == NoField
  {
    hide ParseField, Render, EnoughEscaped;
    NextField(fs, escaped, end);
    if fs != [] {
      CStringWithoutNul(fs[0]);
      NoSeparator(fs[1..], escaped, end);
    }
  }

  /** The first lone dash behind three fields, with three more fields behind it. */
  predicate SeparatorAt(fs: seq<Text>, k: nat) {
    3 <= k && k + 3 < |fs| && fs[k] == [45] && [45] !in fs[3..k]
  }

  lemma {:induction false} FirstDash(fs: seq<Text>) returns (k: nat)
    requires [45] in fs
    ensures k < |fs| && fs[k] == [45] && [45] !in fs[..k]
  {
    k := 0;
    if fs[0] != [45] {
      assert fs == [fs[0]] + fs[1..];
      k := FirstDash(fs[1..]);
      assert fs[..k + 1] == [fs[0]] + fs[1..][..k];
      k := k + 1;
    }
  }

  /** A line of any fields is read exactly if it has a separator with enough fields on both sides, and what is
      read are the first two fields and the first two behind the separator. */
  lemma LineReadIffComplete(fs: seq<Text>, escaped: set<Byte>, end: Text)
    requires EnoughEscaped(escaped) && (end == [] || end[0] == 0)
    requires forall i | 0 <= i < |fs| :: fs[i] != [] && 0 !in fs[i]
    ensures ParseHead(Render(fs, escaped) + end).Line? <==> exists k: nat :: SeparatorAt(fs, k)
    ensures forall k: nat | SeparatorAt(fs, k) ::
      ParseHead(Render(fs, escaped) + end) == Line(MountFields(fs[0], fs[1], fs[k + 1], fs[k + 2]))
  {
    hide ParseField, Render, EnoughEscaped, FindSeparator, ParseTail;
    NextField(fs, escaped, end);
    if |fs| >= 1 {
      NextField(fs[1..], escaped, end);
    }
    if |fs| >= 2 {
      assert fs[1..][1..] == fs[2..];
      NextField(fs[2..], escaped, end);
    }
    if |fs| >= 3 {
      assert fs[2..][1..] == fs[3..];
      forall k: nat | SeparatorAt(fs, k) ensures [45] in fs[3..] {
        InSlice(fs, 3, |fs|, k);
      }
      if [45] in fs[3..] {
        var j := FirstDash(fs[3..]);
        assert fs[3..][..j] == fs[3..j + 3];
        BehindDash(fs, j + 3, fs[0], fs[1], escaped, end);
        OneSeparator(fs, j + 3);
      } else {
        NoSeparator(fs[3..], escaped, end);
      }
    }
  }

  lemma InSlice(fs: seq<Text>, lo: nat, hi: nat, i: nat)
    requires lo <= i < hi <= |fs|
    ensures fs[i] in fs[lo..hi]
  {
    assert fs[lo..hi][i - lo] == fs[i];
  }

  lemma OneSeparator(fs: seq<Text>, k: nat)
    requires 3 <= k < |fs| && fs[k] == [45] && [45] !in fs[3..k]
    ensures forall j: nat | SeparatorAt(fs, j) :: j == k
    ensures SeparatorAt(fs, k) <==> k + 3 < |fs|
  {
    forall i | 3 <= i < k ensures fs[i] != [45] {
      InSlice(fs, 3, k, i);
    }
    forall j: nat | SeparatorAt(fs, j) ensures j == k {
      forall i | 3 <= i < j ensures fs[i] != [45] {
        InSlice(fs, 3, j, i);
      }
    }
  }

  lemma BehindDash(fs: seq<Text>, k: nat, root: Text, mountPoint: Text, escaped: set<Byte>, end: Text)
    requires EnoughEscaped(escaped) && (end == [] || end[0] == 0) && forall i | 0 <= i < |fs| :: Writable(fs[i])
    requires 3 <= k < |fs| && fs[k] == [45] && [45] !in fs[3..k]
    ensures FindSeparator(Render(fs[3..], escaped) + end) == Field(DASH, Render(fs[k + 1..], escaped) + end)
    ensures ParseTail(root, mountPoint, Render(fs[k + 1..], escaped) + end)
      == if k + 3 < |fs| then Line(MountFields(root, mountPoint, fs[k + 1], fs[k + 2])) else Malformed
  {
    hide ParseField, Render, EnoughEscaped, FindSeparator;
    assert fs[3..] == fs[3..k] + [DASH] + fs[k + 1..];
    forall i | 0 <= i < |fs[3..k]| ensures fs[3..k][i] != DASH {
      assert fs[3..k][i] in fs[3..k];
    }
    SeparatorAfterOptions(fs[3..k], fs[k + 1..], escaped, end);
    NextField(fs[k + 1..], escaped, end);
    if k + 1 < |fs| {
      assert fs[k + 1..][1..] == fs[k + 2..];
      NextField(fs[k + 2..], escaped, end);
    }
    if k + 2 < |fs| {
      assert fs[k + 2..][1..] == fs[k + 3..];
      NextField(fs[k + 3..], escaped, end);
    }
  }
}
