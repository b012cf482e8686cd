/** The database file under positional writes that may be short, interrupted or fail. */
module FileStore {
  import opened Bytes
  import opened Packing

  function Zeros(n: nat): (r: Text)
    ensures |r| == n
  {
    if n == 0 then [] else Zeros(n - 1) + [0]
  }

  /** What stands before an offset; a gap behind the end reads as zeros. */
  function Front(bytes: Text, offset: nat): (r: Text)
    ensures |r| == offset
  {
    if offset <= |bytes| then bytes[..offset] else bytes + Zeros(offset - |bytes|)
  }

  function Back(bytes: Text, offset: nat): Text {
    if offset <= |bytes| then bytes[offset..] else []
  }

  /** File contents after a successful write of data at an offset. */
  function WriteAt(bytes: Text, offset: nat, data: Text): Text {
    if data == [] then bytes else Front(bytes, offset) + data + Back(bytes, offset + |data|)
  }

  /** Byte for byte: the data stands at the offset, everything else is as it was, and a gap is zeros. */
  lemma WriteByBytes(bytes: Text, offset: nat, data: Text, i: nat)
    ensures data == [] ==> WriteAt(bytes, offset, data) == bytes
    ensures data != [] ==> var r := WriteAt(bytes, offset, data);
      && |r| == (if offset + |data| > |bytes| then offset + |data| else |bytes|)
      && (i < |r| ==> r[i] == if offset <= i < offset + |data| then data[i - offset]
                              else if i < |bytes| then bytes[i] else 0)
  {
    if |bytes| < offset {
      ZerosAreZero(offset - |bytes|);
    }
  }

  lemma {:induction false} ZerosAreZero(n: nat)
    ensures forall i | 0 <= i < n :: Zeros(n)[i] == 0
  {
    if n > 0 {
      ZerosAreZero(n - 1);
    }
  }

  lemma WriteInTwo(bytes: Text, offset: nat, a: Text, b: Text)
    ensures WriteAt(WriteAt(bytes, offset, a), offset + |a|, b) == WriteAt(bytes, offset, a + b)
  {
    hide WriteAt, Front, Back;
    WriteSome(bytes, offset, a);
    WriteSome(WriteAt(bytes, offset, a), offset + |a|, b);
    if a == [] {
      assert a + b == b;
    } else if b == [] {
      assert a + b == a;
    } else {
      WriteSome(bytes, offset, a + b);
      FrontAndBackOfThree(Front(bytes, offset), a, bytes, offset + |a|, |b|);
      assert Front(bytes, offset) + a + b == Front(bytes, offset) + (a + b);
    }
  }

  lemma WriteSome(bytes: Text, offset: nat, data: Text)
    ensures WriteAt(bytes, offset, data)
      == if data == [] then bytes else Front(bytes, offset) + data + Back(bytes, offset + |data|)
  {
  }

  /** Before and behind a position in a text that ends like another one. */
  lemma FrontAndBackOfThree(head: Text, a: Text, bytes: Text, position: nat, n: nat)
    requires |head| + |a| == position
    ensures var one := head + a + Back(bytes, position);
      Front(one, position) == head + a && Back(one, position + n) == Back(bytes, position + n)
  {
    var tail := Back(bytes, position);
    var one := head + a + tail;
    assert one[..position] == head + a && one[position..] == tail;
    if position + n <= |one| {
      assert one[position + n..] == tail[n..];
    }
  }

  /** The first k bytes of the data stand at the offset. */
  ghost predicate WrittenUpTo(before: Text, offset: nat, data: Text, k: nat, bytes: Text) {
    k <= |data| && bytes == WriteAt(before, offset, data[..k])
  }

  ghost predicate PartlyWritten(before: Text, offset: nat, data: Text, bytes: Text) {
    exists k: nat :: WrittenUpTo(before, offset, data, k, bytes)
  }

  lemma WriteGoesOn(before: Text, offset: nat, data: Text, done: nat, n: nat, bytes: Text)
    requires done + n <= |data| && WrittenUpTo(before, offset, data, done, bytes)
    ensures WrittenUpTo(before, offset, data, done + n, WriteAt(bytes, offset + done, data[done..][..n]))
  {
    hide WriteAt;
    WriteInTwo(before, offset, data[..done], data[done..][..n]);
    assert data[..done] + data[done..][..n] == data[..done + n];
  }

  lemma NothingWritten(bytes: Text, offset: nat, data: Text)
    ensures WrittenUpTo(bytes, offset, data, 0, bytes)
  {
    assert data[..0] == [];
  }

  lemma AllWritten(before: Text, offset: nat, data: Text, bytes: Text)
    ensures WrittenUpTo(before, offset, data, |data|, bytes) ==> bytes == WriteAt(before, offset, data)
  {
    TakeAll(data);
  }

  lemma AppendIsWriteAtEnd(bytes: Text, data: Text)
    ensures WriteAt(bytes, |bytes|, data) == bytes + data
  {
  }

  /** Overwriting a prefix leaves everything behind it as it was. */
  lemma OverwriteHead(head: Text, head': Text, rest: Text)
    requires |head| == |head'|
    ensures WriteAt(head + rest, 0, head') == head' + rest
  {
    hide WriteAt;
    WriteSome(head + rest, 0, head');
    assert head + rest == if head' == [] then rest else head + rest;
    assert Front(head + rest, 0) == [] && Back(head + rest, |head'|) == rest;
    assert [] + head' + rest == head' + rest;
  }

  /** An operation succeeds exactly when the file is open and no system call fails on the way. */
  ghost predicate Succeeded(ok: bool, isOpen: bool, failuresBefore: nat, failuresAfter: nat) {
    && failuresBefore <= failuresAfter
    && (ok <==> isOpen && failuresAfter == failuresBefore)
  }

  class DatabaseFile {
    var bytes: Text
    var isOpen: bool
    /** How many interrupting signals may still arrive. */
    var signals: nat
    /** How many system calls have failed. */
    ghost var failures: nat

    /** Opened for writing, truncated. */
    constructor (opens: bool, signals: nat)
      ensures bytes == [] && isOpen == opens
    {
      bytes, isOpen, this.signals, failures := [], opens, signals, 0;
    }

    /** The system call: writes some non-empty part of the data, or nothing at all. */
    method Pwrite(data: Text, offset: nat) returns (n: nat, interrupted: bool)
      requires data != []
      modifies this`bytes, this`signals, this`failures
      ensures n <= |data| && bytes == WriteAt(old(bytes), offset, data[..n])
      ensures failures == old(failures) + if n == 0 && !interrupted then 1 else 0
      ensures signals <= old(signals) && (n == 0 && interrupted ==> signals < old(signals))
    {
      n, interrupted := 0, false;
      if * {
        n :| 0 < n <= |data|;
        bytes := WriteAt(bytes, offset, data[..n]);
      } else if signals > 0 {
        signals, interrupted := signals - 1, true;
      } else {
        failures := failures + 1;
      }
    }

    /** Writes until all of the data is out, which fails only with the system call.  Success leaves
        exactly the data at the offset; failure leaves a part of it there. */
    method Write(data: Text, offset: nat) returns (ok: bool)
      modifies this`bytes, this`signals, this`failures
      ensures Succeeded(ok, isOpen, old(failures), failures)
      ensures ok && offset + |data| < U32 ==> bytes == WriteAt(old(bytes), offset, data)
      ensures !ok && offset + |data| < U32 ==> PartlyWritten(old(bytes), offset, data, bytes)
    {
      hide WriteAt, Wrap, WrittenUpTo;
      NothingWritten(bytes, offset, data);
      if !isOpen {
        return false;
      }
      var done: nat := 0;
      var at := Wrap(offset);
      while done < |data|
        invariant done <= |data| && isOpen && failures == old(failures)
        invariant offset + |data| < U32 ==> at == offset + done && WrittenUpTo(old(bytes), offset, data, done, bytes)
        decreases |data| - done, signals
      {
        ghost var before := bytes;
        var n, interrupted := Pwrite(data[done..], at);
        if offset + |data| < U32 {
          WriteGoesOn(old(bytes), offset, data, done, n, before);
        }
        if n == 0 {
          if interrupted {
            continue;
          }
          return false;
        }
        at := Wrap(at + n);
        done := done + n;
      }
      AllWritten(old(bytes), offset, data, bytes);
      return true;
    }
  }

  /** Writes a buffer and moves the caller's offset behind it. */
  method WriteDatabaseBuffer(db: DatabaseFile, data: Text, offset: nat) returns (ok: bool, offset': nat)
    modifies db`bytes, db`signals, db`failures
    ensures Succeeded(ok, db.isOpen, old(db.failures), db.failures)
    ensures ok && offset + |data| < U32 ==> db.bytes == WriteAt(old(db.bytes), offset, data)
    ensures !ok && offset + |data| < U32 ==> PartlyWritten(old(db.bytes), offset, data, db.bytes)
    ensures offset' == if ok then Wrap(offset + |data|) else offset
  {
    ok := db.Write(data, offset);
    offset' := if ok then Wrap(offset + |data|) else offset;
  }

  /** Everything written so far stands behind the header, section after section, as long as 32-bit
      offsets reach that far. */
  ghost predicate Laid(bytes: Text, offset: nat, sections: seq<Text>) {
    |Flatten(sections)| < U32 ==> offset == |Flatten(sections)| && bytes == Flatten(sections)
  }

  /** Appends one section at the running offset. */
  method Commit(db: DatabaseFile, data: Text, offset: nat, ghost sections: seq<Text>) returns (ok: bool, offset': nat)
    requires Laid(db.bytes, offset, sections)
    modifies db`bytes, db`signals, db`failures
    ensures Succeeded(ok, db.isOpen, old(db.failures), db.failures)
    ensures ok ==> Laid(db.bytes, offset', sections + [data])
  {
    FlattenSnoc(sections, data);
    AppendIsWriteAtEnd(db.bytes, data);
    ok, offset' := WriteDatabaseBuffer(db, data, offset);
  }
}
