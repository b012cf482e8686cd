/** Packed little-endian records and concatenated blocks: how values become bytes and come back. */
module Packing {
  import opened Bytes

  const U32: nat := 0x1_0000_0000

  /** A 32-bit counter or offset: it comes back to zero behind 2^32 - 1. */
  function Wrap(x: nat): (r: nat)
    ensures r < 0x1_0000_0000
    ensures x < 0x1_0000_0000 ==> r == x
    ensures (x - r) % 0x1_0000_0000 == 0
  {
    x % U32
  }

  // ---- Little-endian integers ---------------------------------------------------------------

  function Pow256(w: nat): (r: nat)
    ensures r > 0
  {
    if w == 0 then 1 else 256 * Pow256(w - 1)
  }

  /** The w lowest bytes of v, lowest first; higher bytes are cut off as a narrowing cast does. */
  function LE(w: nat, v: nat): (r: Text)
    ensures |r| == w
  {
    if w == 0 then [] else [v % 256] + LE(w - 1, v / 256)
  }

  function FromLE(b: Text): nat {
    if b == [] then 0 else b[0] + 256 * FromLE(b[1..])
  }

  lemma {:induction false} FromLEOfLE(w: nat, v: nat)
    requires v < Pow256(w)
    ensures FromLE(LE(w, v)) == v
  {
    if w > 0 {
      FromLEOfLE(w - 1, v / 256);
      assert LE(w, v)[1..] == LE(w - 1, v / 256);
    }
  }

  lemma Widths()
    ensures Pow256(1) == 256 && Pow256(4) == U32 && Pow256(8) == 0x1_0000_0000_0000_0000
  {
    assert Pow256(2) == 0x1_0000 && Pow256(3) == 0x100_0000;
    assert Pow256(5) == 0x100_0000_0000 && Pow256(6) == 0x1_0000_0000_0000 && Pow256(7) == 0x100_0000_0000_0000;
  }

  // ---- Records --------------------------------------------------------------------------------

  function Sum(ws: seq<nat>): nat {
    if ws == [] then 0 else ws[0] + Sum(ws[1..])
  }

  /** A packed struct: its fields in order, field i in ws[i] bytes. */
  function Pack(ws: seq<nat>, vs: seq<nat>): (r: Text)
    requires |ws| == |vs|
    ensures |r| == Sum(ws)
  {
    if ws == [] then [] else LE(ws[0], vs[0]) + Pack(ws[1..], vs[1..])
  }

  function Unpack(ws: seq<nat>, b: Text): (vs: seq<nat>)
    requires |b| == Sum(ws)
    ensures |vs| == |ws|
  {
    if ws == [] then [] else [FromLE(b[..ws[0]])] + Unpack(ws[1..], b[ws[0]..])
  }

  ghost predicate FieldsFit(ws: seq<nat>, vs: seq<nat>) {
    |ws| == |vs| && forall i | 0 <= i < |ws| :: vs[i] < Pow256(ws[i])
  }

  /** Reading a packed struct gives back its fields. */
  lemma {:induction false} UnpackOfPack(ws: seq<nat>, vs: seq<nat>)
    requires FieldsFit(ws, vs)
    ensures Unpack(ws, Pack(ws, vs)) == vs
  {
    if ws != [] {
      FromLEOfLE(ws[0], vs[0]);
      UnpackOfPack(ws[1..], vs[1..]);
      assert Pack(ws, vs)[..ws[0]] == LE(ws[0], vs[0]);
      assert Pack(ws, vs)[ws[0]..] == Pack(ws[1..], vs[1..]);
      assert vs == [vs[0]] + vs[1..];
    }
  }

  // ---- Blocks: rows laid out one after the other -------------------------------------------

  function Flatten<T>(rows: seq<seq<T>>): seq<T> {
    if rows == [] then [] else Flatten(rows[..|rows| - 1]) + rows[|rows| - 1]
  }

  /** Where row i starts: the prefix sum of the row lengths. */
  function Offset<T>(rows: seq<seq<T>>, i: nat): nat
    requires i <= |rows|
  {
    if i == 0 then 0 else Offset(rows, i - 1) + |rows[i - 1]|
  }

  lemma FlattenNothing<T>()
    ensures Flatten<T>([]) == []
  {
  }

  lemma FlattenSnoc<T>(rows: seq<seq<T>>, row: seq<T>)
    ensures Flatten(rows + [row]) == Flatten(rows) + row
  {
    assert (rows + [row])[..|rows|] == rows;
  }

  lemma FlattenTake<T>(rows: seq<seq<T>>, i: nat)
    requires i < |rows|
    ensures Flatten(rows[..i + 1]) == Flatten(rows[..i]) + rows[i]
  {
    TakeSnoc(rows, i);
    FlattenSnoc(rows[..i], rows[i]);
  }

  lemma {:induction false} FlattenAppend<T>(a: seq<seq<T>>, b: seq<seq<T>>)
    ensures Flatten(a + b) == Flatten(a) + Flatten(b)
  {
    hide Flatten;
    if b == [] {
      FlattenNothing<T>();
      assert a + b == a;
    } else {
      var b', x := b[..|b| - 1], b[|b| - 1];
      FlattenAppend(a, b');
      assert a + b == (a + b') + [x] && b == b' + [x];
      FlattenSnoc(a + b', x);
      FlattenSnoc(b', x);
      assert Flatten(a) + (Flatten(b') + x) == Flatten(a) + Flatten(b') + x;
    }
  }

  lemma {:induction false} FlattenLength<T>(rows: seq<seq<T>>, i: nat)
    requires i <= |rows|
    ensures |Flatten(rows[..i])| == Offset(rows, i)
  {
    if i > 0 {
      FlattenLength(rows, i - 1);
      FlattenTake(rows, i - 1);
    }
  }

  /** The rows tile the block: row i is what stands between offset i and offset i + 1. */
  lemma {:induction false} FlattenAt<T>(rows: seq<seq<T>>, i: nat)
    requires i < |rows|
    ensures Offset(rows, i) + |rows[i]| <= |Flatten(rows)| == Offset(rows, |rows|)
    ensures Flatten(rows)[Offset(rows, i)..Offset(rows, i) + |rows[i]|] == rows[i]
  {
    var head, tail := rows[..i + 1], rows[i + 1..];
    assert rows == head + tail;
    FlattenAppend(head, tail);
    FlattenTake(rows, i);
    FlattenLength(rows, i);
    FlattenLength(rows, |rows|);
    assert rows[..|rows|] == rows;
    assert Flatten(rows)[..|Flatten(head)|] == Flatten(head);
    assert Flatten(head)[Offset(rows, i)..] == rows[i];
  }

  lemma FlattenElement<T>(rows: seq<seq<T>>, i: nat, k: nat)
    requires i < |rows| && k < |rows[i]|
    ensures Offset(rows, i) + k < |Flatten(rows)| && Flatten(rows)[Offset(rows, i) + k] == rows[i][k]
  {
    FlattenAt(rows, i);
    var o := Offset(rows, i);
    assert Flatten(rows)[o..o + |rows[i]|][k] == Flatten(rows)[o + k];
  }

  ghost predicate AllWide<T>(rows: seq<seq<T>>, w: nat) {
    forall i | 0 <= i < |rows| :: |rows[i]| == w
  }

  lemma {:induction false} WideOffset<T>(rows: seq<seq<T>>, w: nat, i: nat)
    requires AllWide(rows, w) && i <= |rows|
    ensures Offset(rows, i) == i * w
  {
    if i > 0 {
      WideOffset(rows, w, i - 1);
    }
  }

  /** In a block of equally wide records, record i stands at i times the width. */
  lemma WideAt<T>(rows: seq<seq<T>>, w: nat, i: nat)
    requires AllWide(rows, w) && i < |rows|
    ensures |Flatten(rows)| == |rows| * w
    ensures 0 <= i * w <= i * w + w <= |Flatten(rows)| && Flatten(rows)[i * w..i * w + w] == rows[i]
  {
    FlattenAt(rows, i);
    WideOffset(rows, w, i);
    WideOffset(rows, w, |rows|);
  }

  lemma WideLength<T>(rows: seq<seq<T>>, w: nat)
    requires AllWide(rows, w)
    ensures |Flatten(rows)| == |rows| * w
  {
    FlattenLength(rows, |rows|);
    assert rows[..|rows|] == rows;
    WideOffset(rows, w, |rows|);
  }
}
