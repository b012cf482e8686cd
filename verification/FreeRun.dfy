/** The mode without a database: every file is parsed again and every wanted symbol is printed. */
module FreeRun {
  import opened Bytes
  import opened Sequences
  import opened Packing
  import opened SymbolTables
  import opened ParallelBuild
  import opened DatabaseFormat
  import opened QueryScan
  import opened FileScanner
  import opened Pipeline

  /** The first n symbols of a file, filtered while parsing. */
  function Accepted(symbols: seq<Symbol>, n: nat, query: Text): seq<Symbol>
    requires n <= |symbols|
  {
    if n == 0 then []
    else
      var r, s := Accepted(symbols, n - 1, query), symbols[n - 1];
      if Wanted(query)(s.name, s.meta) then r + [s] else r
  }

  function Lines(path: Text, entries: seq<Symbol>): seq<Found> {
    if entries == [] then []
    else
      var last := entries[|entries| - 1];
      Lines(path, entries[..|entries| - 1]) + [Found(last.name, path, last.meta)]
  }

  lemma LinesSnoc(path: Text, entries: seq<Symbol>, s: Symbol)
    ensures Lines(path, entries + [s]) == Lines(path, entries) + [Found(s.name, path, s.meta)]
  {
    assert (entries + [s])[..|entries|] == entries;
  }

  lemma ScanSnoc(files: seq<FileInfo>, paths: seq<Text>, events: seq<Event>, e: Event, query: Text)
    requires FilesKnown(files, events) && e.ref.fileId < |files|
    ensures FilesKnown(files, events + [e])
    ensures Scan(files, paths, events + [e], query) == Scan(files, paths, events, query) +
      if Wanted(query)(e.name, e.ref.meta)
      then [Found(e.name, ScannerPath(files, paths, e.ref.fileId), e.ref.meta)] else []
  {
    assert (events + [e])[..|events|] == events;
  }

  lemma {:induction false} ScanAppend(files: seq<FileInfo>, paths: seq<Text>, a: seq<Event>, b: seq<Event>, query: Text)
    requires FilesKnown(files, a) && FilesKnown(files, b)
    ensures FilesKnown(files, a + b)
    ensures Scan(files, paths, a + b, query) == Scan(files, paths, a, query) + Scan(files, paths, b, query)
  {
    hide Scan, ScannerPath;
    if b == [] {
      ScanNothing(files, paths, query);
      assert a + b == a;
    } else {
      var b', e := b[..|b| - 1], b[|b| - 1];
      ScanAppend(files, paths, a, b', query);
      assert a + b == (a + b') + [e] && b == b' + [e];
      ScanSnoc(files, paths, a + b', e, query);
      ScanSnoc(files, paths, b', e, query);
    }
  }

  lemma ScanNothing(files: seq<FileInfo>, paths: seq<Text>, query: Text)
    ensures Scan(files, paths, [], query) == []
  {
  }

  /** Scanning the symbols of one file prints what was accepted, under the path of that file. */
  lemma {:induction false} ScanOfFile(files: seq<FileInfo>, paths: seq<Text>, p: Parsed, file: nat, n: nat, query: Text)
    requires file < |p| == |files| && n <= |p[file]|
    ensures FilesKnown(files, FileEvents(p, file, n))
    ensures Scan(files, paths, FileEvents(p, file, n), query)
      == Lines(ScannerPath(files, paths, file), Accepted(p[file], n, query))
  {
    hide Scan, ScannerPath, Lines;
    if n == 0 {
      ScanNothing(files, paths, query);
      NoLines(ScannerPath(files, paths, file));
    } else {
      var s := p[file][n - 1];
      ScanOfFile(files, paths, p, file, n - 1, query);
      ScanSnoc(files, paths, FileEvents(p, file, n - 1), EventOf(file, s), query);
      LinesSnoc(ScannerPath(files, paths, file), Accepted(p[file], n - 1, query), s);
    }
  }

  lemma NoLines(path: Text)
    ensures Lines(path, []) == []
  {
  }

  /** The parser hands over the symbols that pass the filter. */
  method ParseFile(symbols: seq<Symbol>, query: Text, entries: seq<Symbol>) returns (r: seq<Symbol>)
    ensures r == entries + Accepted(symbols, |symbols|, query)
  {
    r := entries;
    for i := 0 to |symbols|
      invariant r == entries + Accepted(symbols, i, query)
    {
      if Wanted(query)(symbols[i].name, symbols[i].meta) {
        r := r + [symbols[i]];
      }
    }
  }

  // ---- Writing ------------------------------------------------------------------------------------------

  /** How the text of one symbol falls into pieces that no other thread can tear apart: the whole entry, the
      three insertions into the stream, or single bytes.  Everything below holds for every cut. */
  type Cut<T> = Found -> seq<T>

  /** An entry that cannot be torn apart. */
  function Whole(f: Found): seq<Found> {
    [f]
  }

  lemma {:induction false} WholeEntries(found: seq<Found>)
    ensures Gather(Whole, found) == found
  {
    hide Gather;
    if found == [] {
      GatherNothing(Whole);
    } else {
      var rest, last := found[..|found| - 1], found[|found| - 1];
      WholeEntries(rest);
      GatherSnoc(Whole, rest, last);
      assert found == rest + [last];
    }
  }

  /** The entries of a file, one after the other. */
  method WriteEntries<T>(cut: Cut<T>, path: Text, entries: seq<Symbol>) returns (r: seq<T>)
    ensures r == Gather(cut, Lines(path, entries))
  {
    hide Gather, Lines;
    GatherNothing(cut);
    NoLines(path);
    r := [];
    for i := 0 to |entries|
      invariant r == Gather(cut, Lines(path, entries[..i]))
    {
      TakeSnoc(entries, i);
      LinesSnoc(path, entries[..i], entries[i]);
      GatherSnoc(cut, Lines(path, entries[..i]), Found(entries[i].name, path, entries[i].meta));
      r := r + cut(Found(entries[i].name, path, entries[i].meta));
    }
    TakeAll(entries);
  }

  // ---- The threads as a step system -----------------------------------------------------------------

  /** What all threads work on. */
  datatype Job<T> = Job(files: seq<FileInfo>, paths: seq<Text>, p: Parsed, query: Text, cut: Cut<T>)

  /** One thread: its files, how many of them are parsed, and what is still to be written of the last. */
  datatype Printer<T> = Printer(fileIds: seq<nat>, idx: nat, pending: seq<T>)

  /** A piece on the terminal, and the thread it came from. */
  datatype Written<T> = Written(thread: nat, piece: T)

  /** The terminal is shared. */
  datatype System<T> = System(printers: seq<Printer<T>>, screen: seq<Written<T>>)

  ghost predicate PrinterOk<T>(job: Job<T>, t: Printer<T>) {
    |job.p| == |job.files| && IdsFit(t.fileIds, job.p) && t.idx <= |t.fileIds|
  }

  predicate Silent<T>(t: Printer<T>) {
    |t.pending| == 0 && t.idx == |t.fileIds|
  }

  /** One step of a thread: write the next piece, or parse the next file. */
  function PrinterStep<T>(job: Job<T>, t: Printer<T>): (Printer<T>, seq<T>)
    requires PrinterOk(job, t) && !Silent(t)
  {
    if |t.pending| > 0 then (t.(pending := t.pending[1..]), [t.pending[0]])
    else
      var file := t.fileIds[t.idx];
      var lines := Lines(ScannerPath(job.files, job.paths, file), Accepted(job.p[file], |job.p[file]|, job.query));
      (t.(idx := t.idx + 1, pending := Gather(job.cut, lines)), [])
  }

  /** The loop of a thread takes that step. */
  method StepPrinter<T>(job: Job<T>, t: Printer<T>) returns (t': Printer<T>, out: seq<T>)
    requires PrinterOk(job, t) && !Silent(t)
    ensures (t', out) == PrinterStep(job, t)
  {
    hide Gather, Lines, Accepted, ScannerPath;
    if |t.pending| > 0 {
      out := [t.pending[0]];
      t' := t.(pending := t.pending[1..]);
    } else {
      var file := t.fileIds[t.idx];
      var path := ScannerPath(job.files, job.paths, file);
      var entries := ParseFile(job.p[file], job.query, []);
      assert entries == Accepted(job.p[file], |job.p[file]|, job.query);
      var pending := WriteEntries(job.cut, path, entries);
      t', out := t.(idx := t.idx + 1, pending := pending), [];
    }
  }

  function Signed<T>(i: nat, out: seq<T>): (r: seq<Written<T>>)
    ensures |r| == |out| && forall k | 0 <= k < |out| :: r[k] == Written(i, out[k])
  {
    seq(|out|, k requires 0 <= k < |out| => Written(i, out[k]))
  }

  function SystemStep<T>(job: Job<T>, s: System<T>, i: nat): System<T>
    requires i < |s.printers| && PrinterOk(job, s.printers[i]) && !Silent(s.printers[i])
  {
    var step := PrinterStep(job, s.printers[i]);
    System(s.printers[i := step.0], s.screen + Signed(i, step.1))
  }

  /** What a thread will still write. */
  ghost function Owed<T>(job: Job<T>, t: Printer<T>): seq<T>
    requires PrinterOk(job, t)
  {
    t.pending + Output(job, t.fileIds[t.idx..])
  }

  /** What scanning some files writes. */
  ghost function Output<T>(job: Job<T>, ids: seq<nat>): seq<T>
    requires |job.p| == |job.files| && IdsFit(ids, job.p)
  {
    Gather(job.cut, ScanIds(job, ids))
  }

  /** The scan of some files. */
  ghost function ScanIds<T>(job: Job<T>, ids: seq<nat>): seq<Found>
    requires |job.p| == |job.files| && IdsFit(ids, job.p)
  {
    EventsKnown(job.p, ids);
    KnownByIndex(job, EventsOf(job.p, ids));
    Scan(job.files, job.paths, EventsOf(job.p, ids), job.query)
  }

  lemma KnownByIndex<T>(job: Job<T>, events: seq<Event>)
    requires |job.p| == |job.files| && forall e | e in events :: e.ref.fileId < |job.p|
    ensures FilesKnown(job.files, events)
  {
    forall k | 0 <= k < |events| ensures events[k].ref.fileId < |job.files| { assert events[k] in events; }
  }

  lemma ScanNoIds<T>(job: Job<T>)
    requires |job.p| == |job.files|
    ensures ScanIds(job, []) == []
  {
  }

  lemma ScanIdsAppend<T>(job: Job<T>, a: seq<nat>, b: seq<nat>)
    requires |job.p| == |job.files| && IdsFit(a, job.p) && IdsFit(b, job.p)
    ensures IdsFit(a + b, job.p) && ScanIds(job, a + b) == ScanIds(job, a) + ScanIds(job, b)
  {
    hide Scan, EventsOf;
    EventsAppend(job.p, a, b);
    EventsKnown(job.p, a);
    EventsKnown(job.p, b);
    KnownByIndex(job, EventsOf(job.p, a));
    KnownByIndex(job, EventsOf(job.p, b));
    ScanAppend(job.files, job.paths, EventsOf(job.p, a), EventsOf(job.p, b), job.query);
  }

  lemma ScanOneId<T>(job: Job<T>, file: nat)
    requires |job.p| == |job.files| && file < |job.p|
    ensures ScanIds(job, [file])
      == Lines(ScannerPath(job.files, job.paths, file), Accepted(job.p[file], |job.p[file]|, job.query))
  {
    hide Scan, EventsOf, Lines, Accepted, ScannerPath;
    NoEvents(job.p);
    EventsSnoc(job.p, [], file);
    assert [] + [file] == [file];
    assert [] + FileEvents(job.p, file, |job.p[file]|) == FileEvents(job.p, file, |job.p[file]|);
    ScanOfFile(job.files, job.paths, job.p, file, |job.p[file]|, job.query);
  }

  lemma NoOutput<T>(job: Job<T>)
    requires |job.p| == |job.files|
    ensures Output(job, []) == []
  {
    hide ScanIds;
    ScanNoIds(job);
  }

  lemma OutputOfFile<T>(job: Job<T>, file: nat)
    requires |job.p| == |job.files| && file < |job.p|
    ensures var path, symbols := ScannerPath(job.files, job.paths, file), job.p[file];
      Output(job, [file]) == Gather(job.cut, Lines(path, Accepted(symbols, |symbols|, job.query)))
  {
    hide ScanIds, Gather, Lines, Accepted, ScannerPath;
    ScanOneId(job, file);
  }

  lemma OutputAppend<T>(job: Job<T>, a: seq<nat>, b: seq<nat>)
    requires |job.p| == |job.files| && IdsFit(a, job.p) && IdsFit(b, job.p)
    ensures IdsFit(a + b, job.p) && Output(job, a + b) == Output(job, a) + Output(job, b)
  {
    hide ScanIds;
    ScanIdsAppend(job, a, b);
    GatherAppend(job.cut, ScanIds(job, a), ScanIds(job, b));
  }

  /** A step writes what was owed first and changes nothing else about what is owed. */
  lemma StepPaysFirst<T>(job: Job<T>, t: Printer<T>)
    requires PrinterOk(job, t) && !Silent(t)
    ensures var step := PrinterStep(job, t);
      && PrinterOk(job, step.0) && step.0.fileIds == t.fileIds && Owed(job, t) == step.1 + Owed(job, step.0)
      && |step.1| + step.0.idx == t.idx + 1 && |step.1| <= 1
  {
    hide Output, Gather, Lines, Accepted, ScannerPath;
    var step := PrinterStep(job, t);
    if |t.pending| > 0 {
      assert t.pending == [t.pending[0]] + t.pending[1..];
      assert Owed(job, t) == [t.pending[0]] + (t.pending[1..] + Output(job, t.fileIds[t.idx..]));
    } else {
      var file, rest := t.fileIds[t.idx], t.fileIds[t.idx + 1..];
      assert t.fileIds[t.idx..] == [file] + rest;
      OutputAppend(job, [file], rest);
      OutputOfFile(job, file);
      assert Owed(job, t) == [] + (Output(job, [file]) + Output(job, rest));
    }
  }

  // ---- Who printed what -----------------------------------------------------------------------------

  /** The pieces of one thread, in order. */
  ghost function OwnPieces<T>(screen: seq<Written<T>>, i: nat): seq<T> {
    if screen == [] then []
    else
      var r, last := OwnPieces(screen[..|screen| - 1], i), screen[|screen| - 1];
      if last.thread == i then r + [last.piece] else r
  }

  lemma OwnPiecesSnoc<T>(screen: seq<Written<T>>, last: Written<T>, i: nat)
    ensures OwnPieces(screen + [last], i) == OwnPieces(screen, i) + if last.thread == i then [last.piece] else []
  {
    assert (screen + [last])[..|screen|] == screen;
  }

  /** At most one piece per step. */
  lemma OwnPiecesGrow<T>(screen: seq<Written<T>>, i: nat, out: seq<T>, j: nat)
    requires |out| <= 1
    ensures OwnPieces(screen + Signed(i, out), j) == OwnPieces(screen, j) + if i == j then out else []
  {
    if out == [] {
      assert screen + Signed(i, out) == screen;
    } else {
      assert Signed(i, out) == [Written(i, out[0])] && out == [out[0]];
      OwnPiecesSnoc(screen, Written(i, out[0]), j);
    }
  }

  /** What every step keeps: written and owed together are the output of the thread's files. */
  ghost predicate ThreadInv<T>(job: Job<T>, ids: seq<nat>, t: Printer<T>, own: seq<T>) {
    PrinterOk(job, t) && t.fileIds == ids && own + Owed(job, t) == Output(job, ids)
  }

  ghost predicate SystemInv<T>(job: Job<T>, chunks: seq<seq<nat>>, s: System<T>) {
    && |s.printers| == |chunks|
    && (forall i | 0 <= i < |chunks| :: ThreadInv(job, chunks[i], s.printers[i], OwnPieces(s.screen, i)))
    && (forall k | 0 <= k < |s.screen| :: s.screen[k].thread < |chunks|)
  }

  lemma ThreadStepKeepsInv<T>(job: Job<T>, ids: seq<nat>, t: Printer<T>, own: seq<T>)
    requires ThreadInv(job, ids, t, own) && !Silent(t)
    ensures var step := PrinterStep(job, t); ThreadInv(job, ids, step.0, own + step.1)
  {
    hide Owed, Output, PrinterStep;
    StepPaysFirst(job, t);
    var step := PrinterStep(job, t);
    assert own + (step.1 + Owed(job, step.0)) == own + step.1 + Owed(job, step.0);
  }

  lemma StepKeepsInv<T>(job: Job<T>, chunks: seq<seq<nat>>, s: System<T>, i: nat)
    requires SystemInv(job, chunks, s) && i < |s.printers| && !Silent(s.printers[i])
    ensures PrinterOk(job, s.printers[i]) && SystemInv(job, chunks, SystemStep(job, s, i))
  {
    hide ThreadInv, PrinterStep, OwnPieces;
    assert ThreadInv(job, chunks[i], s.printers[i], OwnPieces(s.screen, i));
    InvMeansOk(job, chunks[i], s.printers[i], OwnPieces(s.screen, i));
    ThreadStepKeepsInv(job, chunks[i], s.printers[i], OwnPieces(s.screen, i));
    StepPaysFirst(job, s.printers[i]);
    var step := PrinterStep(job, s.printers[i]);
    var s' := SystemStep(job, s, i);
    forall j | 0 <= j < |chunks| ensures ThreadInv(job, chunks[j], s'.printers[j], OwnPieces(s'.screen, j)) {
      OwnPiecesGrow(s.screen, i, step.1, j);
      assert j != i ==> OwnPieces(s.screen, j) + [] == OwnPieces(s.screen, j);
    }
  }

  lemma InvMeansOk<T>(job: Job<T>, ids: seq<nat>, t: Printer<T>, own: seq<T>)
    requires ThreadInv(job, ids, t, own)
    ensures PrinterOk(job, t)
  {
  }

  ghost predicate Started<T>(chunks: seq<seq<nat>>, s: System<T>) {
    && s.screen == [] && |s.printers| == |chunks|
    && forall i | 0 <= i < |chunks| :: s.printers[i] == Printer(chunks[i], 0, [])
  }

  ghost predicate ChunksFit<T>(job: Job<T>, chunks: seq<seq<nat>>) {
    |job.p| == |job.files| && forall i | 0 <= i < |chunks| :: IdsFit(chunks[i], job.p)
  }

  lemma StartKeepsInv<T>(job: Job<T>, chunks: seq<seq<nat>>, s: System<T>)
    requires ChunksFit(job, chunks) && Started(chunks, s)
    ensures SystemInv(job, chunks, s)
  {
    hide Output;
    forall i | 0 <= i < |chunks| ensures ThreadInv(job, chunks[i], s.printers[i], OwnPieces(s.screen, i)) {
      assert chunks[i][0..] == chunks[i];
      assert [] + ([] + Output(job, chunks[i])) == Output(job, chunks[i]);
    }
  }

  /** Thread i is not done and takes a step. */
  ghost predicate Moves<T>(job: Job<T>, s: System<T>, s': System<T>, i: nat) {
    && i < |s.printers| && PrinterOk(job, s.printers[i]) && !Silent(s.printers[i])
    && s' == SystemStep(job, s, i)
  }

  /** Some thread takes a step. */
  ghost predicate Turn<T>(job: Job<T>, s: System<T>, s': System<T>) {
    exists i: nat :: Moves(job, s, s', i)
  }

  ghost predicate Schedule<T>(job: Job<T>, chunks: seq<seq<nat>>, run: seq<System<T>>) {
    && |run| > 0 && Started(chunks, run[0])
    && forall k | 0 <= k < |run| - 1 :: Turn(job, run[k], run[k + 1])
  }

  /** In every state of every schedule each thread has printed a beginning of its scan, in order. */
  lemma {:induction false} SchedulesKeepInv<T>(job: Job<T>, chunks: seq<seq<nat>>, run: seq<System<T>>, k: nat)
    requires ChunksFit(job, chunks) && Schedule(job, chunks, run) && k < |run|
    ensures SystemInv(job, chunks, run[k])
  {
    hide SystemInv, SystemStep, Started;
    if k == 0 {
      StartKeepsInv(job, chunks, run[0]);
    } else {
      SchedulesKeepInv(job, chunks, run, k - 1);
      var i: nat :| Moves(job, run[k - 1], run[k], i);
      StepKeepsInv(job, chunks, run[k - 1], i);
    }
  }

  ghost predicate AllSilent<T>(s: System<T>) {
    forall i | 0 <= i < |s.printers| :: Silent(s.printers[i])
  }

  ghost function Texts<T>(screen: seq<Written<T>>): seq<T> {
    seq(|screen|, k requires 0 <= k < |screen| => screen[k].piece)
  }

  ghost function Rows<T>(screen: seq<Written<T>>, n: nat): (r: seq<seq<T>>)
    ensures |r| == n && forall i | 0 <= i < n :: r[i] == OwnPieces(screen, i)
  {
    seq(n, i requires 0 <= i => OwnPieces(screen, i))
  }

  lemma {:induction false} OneRowGrows<T>(rows: seq<seq<T>>, rows': seq<seq<T>>, t: nat, x: T)
    requires t < |rows| == |rows'| && rows'[t] == rows[t] + [x]
    requires forall i | 0 <= i < |rows| && i != t :: rows'[i] == rows[i]
    ensures multiset(Flatten(rows')) == multiset(Flatten(rows)) + multiset{x}
  {
    hide Flatten;
    var n := |rows| - 1;
    TakeSnoc(rows, n);
    TakeSnoc(rows', n);
    TakeAll(rows);
    TakeAll(rows');
    FlattenSnoc(rows[..n], rows[n]);
    FlattenSnoc(rows'[..n], rows'[n]);
    if t == n {
      assert rows'[..n] == rows[..n];
    } else {
      OneRowGrows(rows[..n], rows'[..n], t, x);
    }
  }

  lemma {:induction false} NothingInRows<T>(rows: seq<seq<T>>)
    requires forall i | 0 <= i < |rows| :: rows[i] == []
    ensures Flatten(rows) == []
  {
    if rows != [] {
      NothingInRows(rows[..|rows| - 1]);
    }
  }

  /** However the pieces of the threads interleave, the terminal holds the pieces of all threads. */
  lemma {:induction false} ScreenHoldsAllRows<T>(screen: seq<Written<T>>, n: nat)
    requires forall k | 0 <= k < |screen| :: screen[k].thread < n
    ensures multiset(Texts(screen)) == multiset(Flatten(Rows(screen, n)))
  {
    hide Flatten;
    if screen == [] {
      NothingInRows(Rows(screen, n));
    } else {
      var rest, last := screen[..|screen| - 1], screen[|screen| - 1];
      ScreenHoldsAllRows(rest, n);
      assert screen == rest + [last];
      forall i: nat ensures OwnPieces(screen, i) == OwnPieces(rest, i) + if last.thread == i then [last.piece] else [] {
        OwnPiecesSnoc(rest, last, i);
      }
      OneRowGrows(Rows(rest, n), Rows(screen, n), last.thread, last.piece);
      assert Texts(screen) == Texts(rest) + [last.piece];
    }
  }

  lemma {:induction false} RowsAreTheScan<T>(job: Job<T>, chunks: seq<seq<nat>>, rows: seq<seq<T>>)
    requires ChunksFit(job, chunks) && |rows| == |chunks|
    requires forall i | 0 <= i < |chunks| :: rows[i] == Output(job, chunks[i])
    ensures IdsFit(Flatten(chunks), job.p) && Flatten(rows) == Output(job, Flatten(chunks))
  {
    hide Flatten, Output;
    if chunks == [] {
      FlattenNothing<nat>();
      FlattenNothing<T>();
      NoOutput(job);
    } else {
      var n := |chunks| - 1;
      RowsAreTheScan(job, chunks[..n], rows[..n]);
      FlattenTake(chunks, n);
      FlattenTake(rows, n);
      TakeAll(chunks);
      TakeAll(rows);
      OutputAppend(job, Flatten(chunks[..n]), chunks[n]);
    }
  }

  /** Once all threads are done, whatever the schedule was: each thread's pieces are the scan of its files,
      in order; put one behind the other they are the scan of all files; and the terminal holds exactly
      those pieces. */
  lemma FinishedSchedulesPrintTheScan<T>(job: Job<T>, chunks: seq<seq<nat>>, run: seq<System<T>>)
    requires ChunksFit(job, chunks) && Schedule(job, chunks, run) && AllSilent(run[|run| - 1])
    ensures var screen := run[|run| - 1].screen;
      && IdsFit(Flatten(chunks), job.p)
      && (forall i | 0 <= i < |chunks| :: OwnPieces(screen, i) == Output(job, chunks[i]))
      && Flatten(Rows(screen, |chunks|)) == Output(job, Flatten(chunks))
      && multiset(Texts(screen)) == multiset(Output(job, Flatten(chunks)))
  {
    hide Output, Turn, Started, OwnPieces, Flatten;
    var s := run[|run| - 1];
    SchedulesKeepInv(job, chunks, run, |run| - 1);
    NoOutput(job);
    forall i | 0 <= i < |chunks| ensures OwnPieces(s.screen, i) == Output(job, chunks[i]) {
      assert ThreadInv(job, chunks[i], s.printers[i], OwnPieces(s.screen, i)) && Silent(s.printers[i]);
      assert s.printers[i].fileIds[s.printers[i].idx..] == [];
      assert OwnPieces(s.screen, i) + ([] + []) == OwnPieces(s.screen, i);
    }
    RowsAreTheScan(job, chunks, Rows(s.screen, |chunks|));
    ScreenHoldsAllRows(s.screen, |chunks|);
  }

  // ---- Progress -------------------------------------------------------------------------------------

  ghost function Effort<T>(job: Job<T>, t: Printer<T>): nat
    requires PrinterOk(job, t)
  {
    |Owed(job, t)| + |t.fileIds| - t.idx
  }

  ghost function EffortUpTo<T>(job: Job<T>, chunks: seq<seq<nat>>, s: System<T>, n: nat): nat
    requires SystemInv(job, chunks, s) && n <= |chunks|
  {
    if n == 0 then 0
    else
      InvMeansOk(job, chunks[n - 1], s.printers[n - 1], OwnPieces(s.screen, n - 1));
      EffortUpTo(job, chunks, s, n - 1) + Effort(job, s.printers[n - 1])
  }

  lemma {:induction false} OneEffortLess<T>(job: Job<T>, chunks: seq<seq<nat>>, s: System<T>, s': System<T>, i: nat,
                                            n: nat)
    requires SystemInv(job, chunks, s) && SystemInv(job, chunks, s') && i < |chunks| && n <= |chunks|
    requires forall j | 0 <= j < |chunks| && j != i :: s'.printers[j] == s.printers[j]
    requires PrinterOk(job, s.printers[i]) && PrinterOk(job, s'.printers[i])
    requires Effort(job, s'.printers[i]) + 1 == Effort(job, s.printers[i])
    ensures EffortUpTo(job, chunks, s', n) == EffortUpTo(job, chunks, s, n) - if i < n then 1 else 0
  {
    hide Effort, SystemInv, PrinterOk;
    if n > 0 {
      OneEffortLess(job, chunks, s, s', i, n - 1);
    }
  }

  /** Every step uses up one unit of effort: no schedule goes on for ever. */
  lemma StepCostsEffort<T>(job: Job<T>, chunks: seq<seq<nat>>, s: System<T>, i: nat)
    requires SystemInv(job, chunks, s) && i < |s.printers| && !Silent(s.printers[i])
    ensures PrinterOk(job, s.printers[i]) && var s' := SystemStep(job, s, i);
      && SystemInv(job, chunks, s')
      && EffortUpTo(job, chunks, s', |chunks|) + 1 == EffortUpTo(job, chunks, s, |chunks|)
  {
    StepKeepsInv(job, chunks, s, i);
    hide Owed, PrinterStep, ThreadInv, EffortUpTo, OwnPieces;
    StepPaysFirst(job, s.printers[i]);
    OneEffortLess(job, chunks, s, SystemStep(job, s, i), i, |chunks|);
  }

  // ---- All threads ----------------------------------------------------------------------------------

  /** The scheduler picks any thread that is not done. */
  method TakeTurn<T>(job: Job<T>, ghost chunks: seq<seq<nat>>, s: System<T>) returns (s': System<T>)
    requires SystemInv(job, chunks, s) && exists i :: 0 <= i < |s.printers| && !Silent(s.printers[i])
    ensures Turn(job, s, s') && SystemInv(job, chunks, s')
    ensures EffortUpTo(job, chunks, s', |chunks|) < EffortUpTo(job, chunks, s, |chunks|)
  {
    hide SystemInv, SystemStep;
    var i :| 0 <= i < |s.printers| && !Silent(s.printers[i]);
    StepCostsEffort(job, chunks, s, i);
    var t, out := StepPrinter(job, s.printers[i]);
    s' := System(s.printers[i := t], s.screen + Signed(i, out));
    StepBySystem(job, s, i, s');
    assert Moves(job, s, s', i);
  }

  lemma StepBySystem<T>(job: Job<T>, s: System<T>, i: nat, s': System<T>)
    requires i < |s.printers| && PrinterOk(job, s.printers[i]) && !Silent(s.printers[i])
    requires var step := PrinterStep(job, s.printers[i]);
      s' == System(s.printers[i := step.0], s.screen + Signed(i, step.1))
    ensures s' == SystemStep(job, s, i)
  {
    hide PrinterStep;
  }

  lemma ScheduleExtends<T>(job: Job<T>, chunks: seq<seq<nat>>, run: seq<System<T>>, s: System<T>)
    requires Schedule(job, chunks, run) && Turn(job, run[|run| - 1], s)
    ensures Schedule(job, chunks, run + [s])
  {
    hide Turn, Started;
    var run' := run + [s];
    forall k | 0 <= k < |run'| - 1 ensures Turn(job, run'[k], run'[k + 1]) {
      if k < |run| - 1 {
        assert Turn(job, run[k], run[k + 1]);
      }
    }
  }

  lemma ScheduleStarts<T>(job: Job<T>, chunks: seq<seq<nat>>, s: System<T>)
    requires Started(chunks, s)
    ensures Schedule(job, chunks, [s])
  {
  }

  function StartPrinters<T>(chunks: seq<seq<nat>>): (r: seq<Printer<T>>)
    ensures |r| == |chunks| && forall i | 0 <= i < |chunks| :: r[i] == Printer(chunks[i], 0, [])
  {
    seq(|chunks|, i requires 0 <= i < |chunks| => Printer(chunks[i], 0, []))
  }

  /** Deals out the files and lets an arbitrary scheduler run the threads to the end. */
  method RunThreads<T>(job: Job<T>, threads: nat) returns (screen: seq<Written<T>>, chunks: seq<seq<nat>>)
    requires |job.p| == |job.files| && threads >= 1
    ensures |chunks| == threads && ChunksFit(job, chunks) && IdsFit(Flatten(chunks), job.p)
    ensures |job.p| < U32 ==> Flatten(chunks) == UpTo(|job.p|)
    ensures forall i | 0 <= i < threads :: OwnPieces(screen, i) == Output(job, chunks[i])
    ensures Flatten(Rows(screen, threads)) == Output(job, Flatten(chunks))
    ensures multiset(Texts(screen)) == multiset(Output(job, Flatten(chunks)))
  {
    hide SystemInv, Schedule, Turn, EffortUpTo, Output, Flatten, OwnPieces;
    chunks := ComputeFileIdChunks(|job.p|, threads);
    var printers := StartPrinters(chunks);
    var s := System(printers, []);
    ghost var run := [s];
    ScheduleStarts(job, chunks, s);
    StartKeepsInv(job, chunks, s);
    while exists i :: 0 <= i < |s.printers| && !Silent(s.printers[i])
      invariant SystemInv(job, chunks, s) && Schedule(job, chunks, run) && |run| > 0 && run[|run| - 1] == s
      decreases EffortUpTo(job, chunks, s, |chunks|)
    {
      s := TakeTurn(job, chunks, s);
      ScheduleExtends(job, chunks, run, s);
      run := run + [s];
    }
    FinishedSchedulesPrintTheScan(job, chunks, run);
    screen := s.screen;
  }

  /** All threads together write exactly the entries a lookup in the database of the same walk prints,
      whatever the schedule and however the entries are torn apart; each thread writes its own in order,
      and read in thread order they are in the same order. */
  method RunAll<T>(found: seq<Located>, files: seq<FileInfo>, paths: seq<Text>, p: Parsed, threads: nat, query: Text,
                   cut: Cut<T>)
    returns (screen: seq<Written<T>>)
    requires Registered(files, paths, found) && |p| == |files| && threads >= 1
    ensures FoundFiles(found, p)
    ensures |p| < U32 ==>
      && multiset(Texts(screen)) == multiset(Gather(cut, Expected(found, AllEvents(p), query)))
      && Flatten(Rows(screen, threads)) == Gather(cut, Expected(found, AllEvents(p), query))
  {
    hide Scan, EventsOf, Flatten, Registered, Expected, Rows, OwnPieces, Gather;
    FilesCollected(files, paths, found);
    FewDirectories(files, paths, found);
    EventsKnown(p, UpTo(|p|));
    var chunks;
    screen, chunks := RunThreads(Job(files, paths, p, query, cut), threads);
    if |p| < U32 {
      ScanIsExpected(found, files, paths, AllEvents(p), query);
    }
  }

  lemma FewDirectories(files: seq<FileInfo>, paths: seq<Text>, found: seq<Located>)
    requires Registered(files, paths, found)
    ensures |paths| <= |found|
  {
    hide Directories;
  }
}
