/** The parallel symbol scan: files are dealt out in chunks, every worker fills a table of its own,
    and the tables are merged.  Workers are modelled as a system of interleaved steps. */
module ParallelBuild {
  import opened Bytes
  import opened Packing
  import opened SymbolTables

  /** What the ELF parser reports, in order. */
  datatype Symbol = Symbol(name: Text, meta: Meta)

  /** symbols[f] is what parsing file f reports; a file that cannot be parsed reports nothing. */
  type Parsed = seq<seq<Symbol>>

  function EventOf(file: nat, s: Symbol): Event {
    Event(s.name, Ref(file, s.meta))
  }

  /** The callbacks made while the first n symbols of a file are reported. */
  function FileEvents(p: Parsed, file: nat, n: nat): seq<Event>
    requires file < |p| && n <= |p[file]|
  {
    if n == 0 then [] else FileEvents(p, file, n - 1) + [EventOf(file, p[file][n - 1])]
  }

  ghost predicate IdsFit(ids: seq<nat>, p: Parsed) {
    forall i | 0 <= i < |ids| :: ids[i] < |p|
  }

  function EventsOf(p: Parsed, ids: seq<nat>): seq<Event>
    requires IdsFit(ids, p)
  {
    if ids == [] then []
    else
      var last := ids[|ids| - 1];
      EventsOf(p, ids[..|ids| - 1]) + FileEvents(p, last, |p[last]|)
  }

  // ---- In what order the symbols come --------------------------------------------------------------

  /** A symbol of a file. */
  datatype Place = Place(file: nat, index: nat)

  predicate Earlier(a: Place, b: Place) {
    a.file < b.file || (a.file == b.file && a.index < b.index)
  }

  /** Event e is the report of the symbol at that place. */
  predicate Reports(p: Parsed, e: Event, at: Place) {
    && at.file < |p| && at.index < |p[at.file]|
    && e.name == p[at.file][at.index].name && e.ref.fileId == at.file && e.ref.meta == p[at.file][at.index].meta
  }

  /** The events report the symbols at these places, in this order. */
  ghost predicate ReportInOrder(p: Parsed, events: seq<Event>, at: seq<Place>) {
    && |at| == |events| && (forall k | 0 <= k < |at| :: Reports(p, events[k], at[k]))
    && (forall j, k | 0 <= j < k < |at| :: Earlier(at[j], at[k]))
  }

  lemma OneMoreReport(p: Parsed, events: seq<Event>, at: seq<Place>, e: Event, x: Place)
    requires ReportInOrder(p, events, at) && Reports(p, e, x) && forall k | 0 <= k < |at| :: Earlier(at[k], x)
    ensures ReportInOrder(p, events + [e], at + [x])
  {
    hide Reports, Earlier;
  }

  lemma {:induction false} FileInOrder(p: Parsed, file: nat, n: nat) returns (at: seq<Place>)
    requires file < |p| && n <= |p[file]|
    ensures ReportInOrder(p, FileEvents(p, file, n), at)
    ensures |at| == n && forall k | 0 <= k < n :: at[k] == Place(file, k)
  {
    at := [];
    if n > 0 {
      at := FileInOrder(p, file, n - 1);
      OneMoreReport(p, FileEvents(p, file, n - 1), at, EventOf(file, p[file][n - 1]), Place(file, n - 1));
      at := at + [Place(file, n - 1)];
    }
  }

  lemma ReportsAppend(p: Parsed, a: seq<Event>, at: seq<Place>, b: seq<Event>, bt: seq<Place>)
    requires ReportInOrder(p, a, at) && ReportInOrder(p, b, bt)
    requires forall j, k | 0 <= j < |at| && 0 <= k < |bt| :: Earlier(at[j], bt[k])
    ensures ReportInOrder(p, a + b, at + bt)
  {
    hide Reports, Earlier;
  }

  /** A pass over the first n files reports every symbol of them exactly once, file by file, in the order
      in which the parser finds them. */
  lemma {:induction false} PassInOrder(p: Parsed, n: nat) returns (at: seq<Place>)
    requires n <= |p|
    ensures IdsFit(UpTo(n), p) && ReportInOrder(p, EventsOf(p, UpTo(n)), at)
    ensures forall x: Place :: x in at <==> x.file < n && x.index < |p[x.file]|
  {
    hide EventsOf, FileEvents;
    if n == 0 {
      NoEvents(p);
      at := [];
    } else {
      at := PassInOrder(p, n - 1);
      var own := FileInOrder(p, n - 1, |p[n - 1]|);
      UpToSnoc(n - 1);
      EventsSnoc(p, UpTo(n - 1), n - 1);
      forall j, k | 0 <= j < |at| && 0 <= k < |own| ensures Earlier(at[j], own[k]) {
        assert at[j] in at;
      }
      ReportsAppend(p, EventsOf(p, UpTo(n - 1)), at, FileEvents(p, n - 1, |p[n - 1]|), own);
      forall x: Place ensures x in at + own <==> x.file < n && x.index < |p[x.file]| {
        assert x.file == n - 1 && x.index < |own| ==> own[x.index] == x;
      }
      at := at + own;
    }
  }

  lemma {:induction false} EventsAppend(p: Parsed, a: seq<nat>, b: seq<nat>)
    requires IdsFit(a, p) && IdsFit(b, p)
    ensures IdsFit(a + b, p) && EventsOf(p, a + b) == EventsOf(p, a) + EventsOf(p, b)
  {
    hide EventsOf, FileEvents;
    if b == [] {
      NoEvents(p);
      assert a + b == a;
    } else {
      var b', last := b[..|b| - 1], b[|b| - 1];
      EventsAppend(p, a, b');
      assert a + b == (a + b') + [last] && b == b' + [last];
      EventsSnoc(p, a + b', last);
      EventsSnoc(p, b', last);
    }
  }

  lemma NoEvents(p: Parsed)
    ensures EventsOf(p, []) == []
  {
  }

  lemma EventsSnoc(p: Parsed, ids: seq<nat>, id: nat)
    requires IdsFit(ids, p) && id < |p|
    ensures IdsFit(ids + [id], p) && EventsOf(p, ids + [id]) == EventsOf(p, ids) + FileEvents(p, id, |p[id]|)
  {
    assert (ids + [id])[..|ids|] == ids;
  }

  /** 0, 1, ..., n - 1 */
  function UpTo(n: nat): (r: seq<nat>)
    ensures |r| == n && forall i | 0 <= i < n :: r[i] == i
  {
    seq(n, i requires 0 <= i => i)
  }

  /** The table of one pass over all files in order. */
  function Sequential(p: Parsed): Table {
    TableOf(EventsOf(p, UpTo(|p|)))
  }

  // ---- Dealing out the files ----------------------------------------------------------------------

  /** The end of the first i chunks when the first r of them hold b + 1 files and the others b. */
  ghost function ChunkStart(b: nat, r: nat, i: nat): nat {
    if i == 0 then 0 else ChunkStart(b, r, i - 1) + ChunkSize(b, r, i - 1)
  }

  /** How many of n files thread i gets. */
  function FairShare(n: nat, threads: nat, i: nat): nat
    requires threads >= 1
  {
    ChunkSize(n / threads, n % threads, i)
  }

  function ChunkSize(b: nat, r: nat, i: nat): nat {
    b + if i < r then 1 else 0
  }

  lemma {:induction false} ChunkStartClosed(b: nat, r: nat, i: nat)
    ensures ChunkStart(b, r, i) == i * b + if i < r then i else r
  {
    if i > 0 {
      ChunkStartClosed(b, r, i - 1);
      Distribute(i - 1, 1, b);
    }
  }

  lemma ChunksCover(n: nat, threads: nat)
    requires threads >= 1
    ensures ChunkStart(n / threads, n % threads, threads) == n
  {
    ChunkStartClosed(n / threads, n % threads, threads);
    assert n == threads * (n / threads) + n % threads;
  }

  method ConsecutiveIds(begin: nat, end: nat) returns (ids: seq<nat>)
    ensures forall k | 0 <= k < |ids| :: ids[k] < end
    ensures begin <= end ==> |ids| == end - begin && UpTo(begin) + ids == UpTo(end)
  {
    ids := [];
    var j := begin;
    while j < end
      invariant begin <= j && |ids| == j - begin && UpTo(begin) + ids == UpTo(j)
      invariant begin <= end ==> j <= end
      invariant forall k | 0 <= k < |ids| :: ids[k] < end
    {
      UpToSnoc(j);
      ids := ids + [j];
      j := j + 1;
    }
  }

  /** Consecutive ids in chunks whose sizes differ by at most one, larger chunks first.  Ids are 32 bits
      wide: with more files than that some are dealt out twice or not at all, but none that is not there. */
  method ComputeFileIdChunks(n: nat, threads: nat) returns (chunks: seq<seq<nat>>)
    requires threads >= 1
    ensures |chunks| == threads && forall i, k | 0 <= i < threads && 0 <= k < |chunks[i]| :: chunks[i][k] < n
    ensures n < U32 ==> Flatten(chunks) == UpTo(n)
    ensures n < U32 ==> forall i | 0 <= i < threads :: |chunks[i]| == FairShare(n, threads, i)
    ensures n < U32 ==> forall i | 0 <= i < threads :: n / threads <= |chunks[i]| <= n / threads + 1
    ensures n < U32 ==> forall i, j | 0 <= i < j < threads :: |chunks[j]| <= |chunks[i]|
  {
    hide Flatten, Wrap, ChunkStart, ChunkSize;
    chunks := [];
    FlattenNothing<nat>();
    var base, remainder := n / threads, n % threads;
    var begin: nat := 0;
    NothingDealt(base, remainder);
    for i := 0 to threads
      invariant |chunks| == i && begin < U32
      invariant forall j, k | 0 <= j < i && 0 <= k < |chunks[j]| :: chunks[j][k] < U32
      invariant n < U32 ==> Flatten(chunks) == UpTo(begin) && begin == ChunkStart(base, remainder, i)
      invariant n < U32 ==> forall k | 0 <= k < i :: |chunks[k]| == ChunkSize(base, remainder, k)
    {
      var size := ChunkSize(base, remainder, i);
      var end := Wrap(begin + Wrap(size));
      ChunkEndsInside(n, threads, i);
      var ids := ConsecutiveIds(begin, end);
      FlattenSnoc(chunks, ids);
      chunks := chunks + [ids];
      begin := end;
    }
    ChunksCover(n, threads);
    if n < U32 {
      ListedIdsExist(chunks, n);
      SharesAreFair(n, threads);
    }
  }

  lemma SharesAreFair(n: nat, threads: nat)
    requires threads >= 1
    ensures forall i: nat :: n / threads <= FairShare(n, threads, i) <= n / threads + 1
    ensures forall i: nat, j: nat | i < j :: FairShare(n, threads, j) <= FairShare(n, threads, i)
  {
  }

  lemma NothingDealt(b: nat, r: nat)
    ensures ChunkStart(b, r, 0) == 0
  {
  }

  lemma ListedIdsExist(chunks: seq<seq<nat>>, n: nat)
    requires Flatten(chunks) == UpTo(n)
    ensures forall i, k | 0 <= i < |chunks| && 0 <= k < |chunks[i]| :: chunks[i][k] < n
  {
    forall i, k | 0 <= i < |chunks| && 0 <= k < |chunks[i]| ensures chunks[i][k] < n {
      FlattenElement(chunks, i, k);
    }
  }

  /** No chunk reaches beyond the last file, so nothing wraps. */
  lemma ChunkEndsInside(n: nat, threads: nat, i: nat)
    requires threads >= 1 && i < threads
    ensures var b, r := n / threads, n % threads;
      && ChunkStart(b, r, i + 1) == ChunkStart(b, r, i) + ChunkSize(b, r, i)
      && ChunkSize(b, r, i) <= ChunkStart(b, r, i + 1) <= n
  {
    ChunksCover(n, threads);
    ChunkStartsGrow(n / threads, n % threads, i + 1, threads);
  }

  lemma {:induction false} ChunkStartsGrow(b: nat, r: nat, i: nat, j: nat)
    requires i <= j
    ensures ChunkStart(b, r, i) <= ChunkStart(b, r, j)
  {
    if i < j {
      ChunkStartsGrow(b, r, i, j - 1);
    }
  }

  lemma UpToSnoc(n: nat)
    ensures UpTo(n + 1) == UpTo(n) + [n]
  {
  }

  lemma Distribute(x: nat, y: nat, b: nat)
    ensures (x + y) * b == x * b + y * b && y * b >= 0
  {
  }

  /** As many threads as the hardware offers if each gets at least twenty files, else fewer: the largest
      count that leaves every thread its twenty files, and at least one. */
  function ProperThreadCount(files: nat, hardware: nat): (t: nat)
    requires 1 <= hardware < 0x1_0000
    ensures t >= 1
    ensures files / hardware < U32 ==> t <= hardware && (t == 1 || files / t >= 20)
    ensures files / hardware < U32 && t < hardware ==> files < 20 * (t + 1)
  {
    var perThread, few := files / hardware, files / 20;
    FewThreads(files, hardware, perThread, few);
    if Wrap(perThread) >= 20 then hardware else if Narrow(few) < 1 then 1 else Narrow(few)
  }

  /** A 16-bit thread count. */
  function Narrow(x: nat): (r: nat)
    ensures r < 0x1_0000
    ensures x < 0x1_0000 ==> r == x
    ensures (x - r) % 0x1_0000 == 0
  {
    x % 0x1_0000
  }

  lemma FewThreads(files: nat, hardware: nat, perThread: nat, few: nat)
    requires hardware >= 1 && perThread == files / hardware && few == files / 20
    ensures perThread < 20 ==> few <= hardware
    ensures few >= 1 ==> files / few >= 20
    ensures files < 20 * (few + 1)
  {
    QuotientBounds(files, hardware);
    if few >= 1 {
      QuotientBounds(files, few);
    }
  }

  lemma QuotientBounds(x: nat, d: nat)
    requires d >= 1
    ensures x / d < 20 ==> x < 20 * d
  {
    var q := x / d;
    assert x < d * q + d;
    if q < 20 {
      Distribute(q, 19 - q, d);
    }
  }

  // ---- The workers as a step system ---------------------------------------------------------------

  /** One thread: its files, the position among them, the next symbol of that file, and its table. */
  datatype Worker = Worker(fileIds: seq<nat>, idx: nat, sym: nat, table: Table)

  ghost predicate WorkerOk(p: Parsed, w: Worker) {
    && IdsFit(w.fileIds, p)
    && w.idx <= |w.fileIds|
    && (if w.idx == |w.fileIds| then w.sym == 0 else w.sym <= |p[w.fileIds[w.idx]]|)
  }

  predicate Finished(w: Worker) {
    w.idx == |w.fileIds|
  }

  ghost predicate AllFinished(ws: seq<Worker>) {
    forall i | 0 <= i < |ws| :: Finished(ws[i])
  }

  /** One step of a thread: store the next symbol of the current file, or go on to the next file. */
  function WorkerStep(p: Parsed, w: Worker): Worker
    requires WorkerOk(p, w) && !Finished(w)
  {
    var file := w.fileIds[w.idx];
    if w.sym < |p[file]| then
      var e := EventOf(file, p[file][w.sym]);
      w.(sym := w.sym + 1, table := Absorb(w.table, e.name, [e.ref]))
    else
      w.(idx := w.idx + 1, sym := 0)
  }

  /** The callbacks a worker has made so far. */
  ghost function Seen(p: Parsed, w: Worker): seq<Event>
    requires WorkerOk(p, w)
  {
    EventsOf(p, w.fileIds[..w.idx]) + if Finished(w) then [] else FileEvents(p, w.fileIds[w.idx], w.sym)
  }

  /** What every step keeps: a worker's table is exactly that of the symbols it was given so far. */
  ghost predicate WorkerInv(p: Parsed, w: Worker) {
    WorkerOk(p, w) && w.table == TableOf(Seen(p, w))
  }

  lemma StepKeepsInvariant(p: Parsed, w: Worker)
    requires WorkerInv(p, w) && !Finished(w)
    ensures WorkerInv(p, WorkerStep(p, w)) && WorkerStep(p, w).fileIds == w.fileIds
  {
    hide TableOf, Absorb, Seen;
    var file := w.fileIds[w.idx];
    StepIsSeen(p, w);
    if w.sym < |p[file]| {
      StoreOne(Seen(p, w), EventOf(file, p[file][w.sym]));
    } else {
      assert Seen(p, w) + [] == Seen(p, w);
    }
  }

  /** Going on to the next file stores nothing. */
  lemma StepIsSeen(p: Parsed, w: Worker)
    requires WorkerOk(p, w) && !Finished(w)
    ensures WorkerOk(p, WorkerStep(p, w))
    ensures var file := w.fileIds[w.idx];
      Seen(p, WorkerStep(p, w)) == Seen(p, w) + if w.sym < |p[file]| then [EventOf(file, p[file][w.sym])] else []
  {
    hide TableOf, Absorb, EventsOf;
    var file, done := w.fileIds[w.idx], w.fileIds[..w.idx];
    if w.sym < |p[file]| {
      var e := EventOf(file, p[file][w.sym]);
      assert FileEvents(p, file, w.sym + 1) == FileEvents(p, file, w.sym) + [e];
      assert Seen(p, WorkerStep(p, w)) == EventsOf(p, done) + (FileEvents(p, file, w.sym) + [e]);
      assert Seen(p, w) + [e] == EventsOf(p, done) + (FileEvents(p, file, w.sym) + [e]);
    } else {
      TakeSnoc(w.fileIds, w.idx);
      EventsSnoc(p, done, file);
      assert Seen(p, WorkerStep(p, w)) == EventsOf(p, done + [file]) + [];
      assert Seen(p, w) + [] == EventsOf(p, done + [file]);
    }
  }

  ghost predicate Initial(p: Parsed, chunks: seq<seq<nat>>, ws: seq<Worker>) {
    |ws| == |chunks| && forall i | 0 <= i < |ws| :: ws[i] == Worker(chunks[i], 0, 0, EMPTY_TABLE)
  }

  ghost predicate AllInv(p: Parsed, ws: seq<Worker>) {
    forall i | 0 <= i < |ws| :: WorkerInv(p, ws[i])
  }

  /** Some unfinished thread takes a step; the others do not move. */
  ghost predicate Step(p: Parsed, ws: seq<Worker>, ws': seq<Worker>) {
    exists i :: 0 <= i < |ws| && WorkerOk(p, ws[i]) && !Finished(ws[i]) && ws' == ws[i := WorkerStep(p, ws[i])]
  }

  /** A run: states linked by steps of arbitrary threads in arbitrary order. */
  ghost predicate Run(p: Parsed, chunks: seq<seq<nat>>, run: seq<seq<Worker>>) {
    && |run| > 0 && Initial(p, chunks, run[0])
    && forall k | 0 <= k < |run| - 1 :: Step(p, run[k], run[k + 1])
  }

  lemma StepsKeepAll(p: Parsed, ws: seq<Worker>, ws': seq<Worker>)
    requires AllInv(p, ws) && Step(p, ws, ws')
    ensures AllInv(p, ws') && |ws'| == |ws| && forall i | 0 <= i < |ws| :: ws'[i].fileIds == ws[i].fileIds
  {
    hide WorkerInv, WorkerStep;
    var i :| 0 <= i < |ws| && WorkerOk(p, ws[i]) && !Finished(ws[i]) && ws' == ws[i := WorkerStep(p, ws[i])];
    StepKeepsInvariant(p, ws[i]);
  }

  /** In every reachable state every table is that of the symbols its thread was given so far. */
  lemma {:induction false} RunsKeepTables(p: Parsed, chunks: seq<seq<nat>>, run: seq<seq<Worker>>, k: nat)
    requires Run(p, chunks, run) && k < |run|
    requires forall i | 0 <= i < |chunks| :: IdsFit(chunks[i], p)
    ensures AllInv(p, run[k]) && |run[k]| == |chunks|
    ensures forall i | 0 <= i < |chunks| :: run[k][i].fileIds == chunks[i]
  {
    if k == 0 {
      forall i | 0 <= i < |chunks| ensures WorkerInv(p, run[0][i]) {
        NothingSeen(p, chunks[i]);
      }
    } else {
      RunsKeepTables(p, chunks, run, k - 1);
      StepsKeepAll(p, run[k - 1], run[k]);
    }
  }

  lemma NothingSeen(p: Parsed, ids: seq<nat>)
    requires IdsFit(ids, p)
    ensures WorkerInv(p, Worker(ids, 0, 0, EMPTY_TABLE))
  {
    assert TableOf([]) == EMPTY_TABLE;
    assert Seen(p, Worker(ids, 0, 0, EMPTY_TABLE)) == [];
  }

  // ---- Progress -------------------------------------------------------------------------------------

  /** The steps a worker still has to take. */
  ghost function Work(p: Parsed, w: Worker): nat
    requires WorkerOk(p, w)
    decreases |w.fileIds| - w.idx
  {
    if Finished(w) then 0
    else |p[w.fileIds[w.idx]]| - w.sym + 1 + Work(p, w.(idx := w.idx + 1, sym := 0))
  }

  ghost function WorkUpTo(p: Parsed, ws: seq<Worker>, n: nat): nat
    requires AllInv(p, ws) && n <= |ws|
  {
    if n == 0 then 0 else WorkUpTo(p, ws, n - 1) + Work(p, ws[n - 1])
  }

  ghost function TotalWork(p: Parsed, ws: seq<Worker>): nat
    requires AllInv(p, ws)
  {
    WorkUpTo(p, ws, |ws|)
  }

  lemma StepIsWork(p: Parsed, ws: seq<Worker>, i: nat)
    requires AllInv(p, ws) && i < |ws| && !Finished(ws[i])
    ensures AllInv(p, ws[i := WorkerStep(p, ws[i])])
    ensures TotalWork(p, ws[i := WorkerStep(p, ws[i])]) == TotalWork(p, ws) - 1
  {
    hide Work, Seen, WorkUpTo, TableOf, Absorb;
    StepKeepsInvariant(p, ws[i]);
    WorkerStepIsWork(p, ws[i]);
    OneWorksLess(p, ws, ws[i := WorkerStep(p, ws[i])], i, |ws|);
  }

  lemma {:induction false} OneWorksLess(p: Parsed, ws: seq<Worker>, ws': seq<Worker>, i: nat, n: nat)
    requires AllInv(p, ws) && AllInv(p, ws') && i < |ws| == |ws'| && n <= |ws|
    requires forall j | 0 <= j < |ws| && j != i :: ws'[j] == ws[j]
    requires Work(p, ws'[i]) == Work(p, ws[i]) - 1
    ensures WorkUpTo(p, ws', n) == WorkUpTo(p, ws, n) - if i < n then 1 else 0
  {
    hide Work, WorkerInv;
    if n > 0 {
      OneWorksLess(p, ws, ws', i, n - 1);
    }
  }

  lemma WorkerStepIsWork(p: Parsed, w: Worker)
    requires WorkerOk(p, w) && !Finished(w) && WorkerOk(p, WorkerStep(p, w))
    ensures Work(p, WorkerStep(p, w)) == Work(p, w) - 1
  {
    var w' := WorkerStep(p, w);
    if w'.idx == w.idx {
      WorkIgnoresTable(p, w.(idx := w.idx + 1, sym := 0), w'.table);
    }
  }

  lemma WorkIgnoresTable(p: Parsed, w: Worker, t: Table)
    requires WorkerOk(p, w)
    ensures Work(p, w.(table := t)) == Work(p, w)
    decreases |w.fileIds| - w.idx
  {
    if !Finished(w) {
      WorkIgnoresTable(p, w.(idx := w.idx + 1, sym := 0), t);
    }
  }

  /** Every step uses up one unit of work, so no schedule runs forever and none can get stuck. */
  lemma {:induction false} RunsAreBounded(p: Parsed, chunks: seq<seq<nat>>, run: seq<seq<Worker>>, k: nat)
    requires Run(p, chunks, run) && k < |run|
    requires forall i | 0 <= i < |chunks| :: IdsFit(chunks[i], p)
    ensures AllInv(p, run[0]) && AllInv(p, run[k]) && TotalWork(p, run[k]) + k == TotalWork(p, run[0])
    ensures TotalWork(p, run[k]) == 0 <==> AllFinished(run[k])
  {
    hide WorkerInv, Work, WorkUpTo, WorkerStep;
    RunsKeepTables(p, chunks, run, 0);
    RunsKeepTables(p, chunks, run, k);
    NoWorkLeft(p, run[k], |run[k]|);
    if k > 0 {
      RunsAreBounded(p, chunks, run, k - 1);
      var i :| 0 <= i < |run[k - 1]| && WorkerOk(p, run[k - 1][i]) && !Finished(run[k - 1][i])
               && run[k] == run[k - 1][i := WorkerStep(p, run[k - 1][i])];
      StepIsWork(p, run[k - 1], i);
    }
  }

  lemma {:induction false} NoWorkLeft(p: Parsed, ws: seq<Worker>, n: nat)
    requires AllInv(p, ws) && n <= |ws|
    ensures WorkUpTo(p, ws, n) == 0 <==> forall i | 0 <= i < n :: Finished(ws[i])
  {
    hide Work, Seen, TableOf;
    if n > 0 {
      NoWorkLeft(p, ws, n - 1);
      assert WorkerInv(p, ws[n - 1]);
      DoneMeansNoWork(p, ws[n - 1]);
    }
  }

  lemma DoneMeansNoWork(p: Parsed, w: Worker)
    requires WorkerOk(p, w)
    ensures Work(p, w) == 0 <==> Finished(w)
  {
  }

  // ---- Merging ------------------------------------------------------------------------------------

  const MAX_SYMBOL_NAME_SAMPLES: nat := 100_000

  ghost predicate TablesOf(p: Parsed, chunks: seq<seq<nat>>, tables: seq<Table>) {
    && |tables| == |chunks|
    && forall i | 0 <= i < |tables| :: IdsFit(chunks[i], p) && tables[i] == TableOf(EventsOf(p, chunks[i]))
  }

  class DatabaseBuilder {
    /** Names handed to the dictionary trainer. */
    var samples: seq<Text>
    var sampleCount: nat

    constructor ()
      ensures samples == [] && sampleCount == 0
    {
      samples, sampleCount := [], 0;
    }

    /** Merges one table.  The first names that are new become dictionary samples. */
    method MergeOne(table: Table, merged: Table) returns (r: Table)
      requires Valid(table) && Valid(merged)
      requires sampleCount == |merged.keys| && samples == Sampled(merged)
      modifies this
      ensures r == MergeFirst(merged, table, |table.keys|)
      ensures sampleCount == |r.keys| && samples == Sampled(r)
    {
      hide Fresh, Absorb, Sampled;
      r := merged;
      for k := 0 to |table.keys|
        invariant r == MergeFirst(merged, table, k) && Valid(r)
        invariant sampleCount == |r.keys| && samples == Sampled(r)
      {
        var name := table.keys[k];
        AbsorbSampled(r, name, table.refs[name]);
        MergeFirstKeys(merged, table, k + 1);
        if name !in r.refs {
          sampleCount := sampleCount + 1;
          if sampleCount <= MAX_SYMBOL_NAME_SAMPLES {
            samples := samples + [name];
          }
        }
        r := Absorb(r, name, table.refs[name]);
      }
    }

    /** Merges the workers' tables in thread order. */
    method MergeSymtables(tables: seq<Table>) returns (merged: Table)
      requires forall i | 0 <= i < |tables| :: Valid(tables[i])
      requires sampleCount == 0 && samples == []
      modifies this
      ensures merged == MergeAll(tables) && samples == Sampled(merged)
      ensures samples <= merged.keys && |samples| == if |merged.keys| < 100_000 then |merged.keys| else 100_000
    {
      merged := EMPTY_TABLE;
      for i := 0 to |tables|
        invariant merged == MergeAll(tables[..i]) && Valid(merged)
        invariant sampleCount == |merged.keys| && samples == Sampled(merged)
      {
        TakeSnoc(tables, i);
        MergeFirstKeys(merged, tables[i], |tables[i].keys|);
        merged := MergeOne(tables[i], merged);
      }
      assert tables[..|tables|] == tables;
      SampledIsPrefix(merged);
    }

    /** The whole scan: deal out the files, run the threads in some interleaving, merge. */
    method BuildTable(p: Parsed, threads: nat) returns (merged: Table)
      requires threads >= 1 && sampleCount == 0 && samples == []
      modifies this
      ensures Valid(merged) && samples == Sampled(merged)
      ensures |p| < U32 ==> merged == Sequential(p)
    {
      var chunks := ComputeFileIdChunks(|p|, threads);
      var tables := LaunchThreads(p, chunks);
      MergeAllTables(p, chunks, tables);
      merged := MergeSymtables(tables);
    }
  }

  function MergeAll(tables: seq<Table>): (r: Table)
    requires forall i | 0 <= i < |tables| :: Valid(tables[i])
    ensures Valid(r)
  {
    if tables == [] then EMPTY_TABLE
    else
      var last := tables[|tables| - 1];
      var r := MergeAll(tables[..|tables| - 1]);
      MergeFirstKeys(r, last, |last.keys|);
      MergeFirst(r, last, |last.keys|)
  }

  lemma FlattenKeepsIds(p: Parsed, chunks: seq<seq<nat>>, i: nat)
    requires IdsFit(Flatten(chunks), p) && i < |chunks|
    ensures IdsFit(chunks[i], p)
  {
    forall k | 0 <= k < |chunks[i]| ensures chunks[i][k] < |p| {
      FlattenElement(chunks, i, k);
    }
  }

  /** Merging the tables of all chunks gives the table of the chunks one after the other. */
  lemma {:induction false} MergeAllTables(p: Parsed, chunks: seq<seq<nat>>, tables: seq<Table>)
    requires TablesOf(p, chunks, tables)
    ensures IdsFit(Flatten(chunks), p) && MergeAll(tables) == TableOf(EventsOf(p, Flatten(chunks)))
  {
    if tables == [] {
      assert TableOf([]) == EMPTY_TABLE;
    } else {
      var n := |tables| - 1;
      MergeAllTables(p, chunks[..n], tables[..n]);
      FlattenTake(chunks, n);
      assert chunks[..n + 1] == chunks;
      EventsAppend(p, Flatten(chunks[..n]), chunks[n]);
      MergeIsAppend(EventsOf(p, Flatten(chunks[..n])), EventsOf(p, chunks[n]));
    }
  }

  /** The names offered to the dictionary: the first ones of the table, up to the limit. */
  ghost function Sampled(t: Table): seq<Text> {
    if |t.keys| <= MAX_SYMBOL_NAME_SAMPLES then t.keys else t.keys[..MAX_SYMBOL_NAME_SAMPLES]
  }

  lemma SampledIsPrefix(t: Table)
    ensures Sampled(t) <= t.keys && |Sampled(t)| == if |t.keys| < 100_000 then |t.keys| else 100_000
  {
  }

  lemma AbsorbSampled(t: Table, name: Text, refs: seq<Ref>)
    requires Valid(t)
    ensures var t' := Absorb(t, name, refs);
      && |t'.keys| == |t.keys| + (if name in t.refs then 0 else 1)
      && Sampled(t') == Sampled(t) + if name !in t.refs && |t'.keys| <= MAX_SYMBOL_NAME_SAMPLES then [name] else []
  {
  }

  /** A finished run leaves every worker with the table of its own chunk, whatever the schedule was. */
  lemma FinishedRunTables(p: Parsed, chunks: seq<seq<nat>>, run: seq<seq<Worker>>)
    requires Run(p, chunks, run) && forall i | 0 <= i < |chunks| :: IdsFit(chunks[i], p)
    requires AllFinished(run[|run| - 1])
    ensures TablesOf(p, chunks, Tables(run[|run| - 1]))
  {
    var ws := run[|run| - 1];
    RunsKeepTables(p, chunks, run, |run| - 1);
    forall i | 0 <= i < |ws| ensures ws[i].table == TableOf(EventsOf(p, chunks[i])) {
      assert WorkerInv(p, ws[i]) && Finished(ws[i]);
      assert ws[i].fileIds[..ws[i].idx] == ws[i].fileIds;
      assert Seen(p, ws[i]) == EventsOf(p, chunks[i]);
    }
  }

  ghost function Tables(ws: seq<Worker>): seq<Table> {
    seq(|ws|, i requires 0 <= i < |ws| => ws[i].table)
  }

  /** Whatever the chunks, the number of threads and the schedule: once all threads are done, the merged
      tables are the table of one sequential pass over the files. */
  lemma ParallelEqualsSequential(p: Parsed, chunks: seq<seq<nat>>, run: seq<seq<Worker>>)
    requires Flatten(chunks) == UpTo(|p|) && Run(p, chunks, run) && AllFinished(run[|run| - 1])
    ensures var tables := Tables(run[|run| - 1]);
      && (forall i | 0 <= i < |tables| :: Valid(tables[i]))
      && MergeAll(tables) == Sequential(p)
  {
    forall i | 0 <= i < |chunks| ensures IdsFit(chunks[i], p) { FlattenKeepsIds(p, chunks, i); }
    FinishedRunTables(p, chunks, run);
    MergeAllTables(p, chunks, Tables(run[|run| - 1]));
  }

  lemma RunExtends(p: Parsed, chunks: seq<seq<nat>>, run: seq<seq<Worker>>, ws: seq<Worker>)
    requires Run(p, chunks, run) && AllInv(p, run[|run| - 1]) && Step(p, run[|run| - 1], ws)
    ensures Run(p, chunks, run + [ws])
  {
    hide Step, Initial, AllInv;
    var run' := run + [ws];
    forall k | 0 <= k < |run'| - 1 ensures Step(p, run'[k], run'[k + 1]) {
      if k < |run| - 1 {
        assert Step(p, run[k], run[k + 1]);
      }
    }
  }

  lemma RunStarts(p: Parsed, chunks: seq<seq<nat>>, ws: seq<Worker>)
    requires Initial(p, chunks, ws)
    ensures Run(p, chunks, [ws])
  {
  }

  /** The scheduler picks any thread that is not done. */
  method ScheduleOne(p: Parsed, ws: seq<Worker>) returns (ws': seq<Worker>)
    requires AllInv(p, ws) && exists i :: 0 <= i < |ws| && !Finished(ws[i])
    ensures Step(p, ws, ws') && AllInv(p, ws') && TotalWork(p, ws') < TotalWork(p, ws)
  {
    var i :| 0 <= i < |ws| && !Finished(ws[i]);
    StepIsWork(p, ws, i);
    ws' := ws[i := WorkerStep(p, ws[i])];
  }

  /** Starts one worker per chunk and lets an arbitrary scheduler run them to the end. */
  method LaunchThreads(p: Parsed, chunks: seq<seq<nat>>) returns (tables: seq<Table>)
    requires forall i | 0 <= i < |chunks| :: IdsFit(chunks[i], p)
    ensures TablesOf(p, chunks, tables)
  {
    hide Run, Step, AllInv, TotalWork, TablesOf, WorkerInv;
    var ws := seq(|chunks|, i requires 0 <= i < |chunks| => Worker(chunks[i], 0, 0, EMPTY_TABLE));
    ghost var run := [ws];
    RunStarts(p, chunks, ws);
    RunsKeepTables(p, chunks, run, 0);
    while exists i :: 0 <= i < |ws| && !Finished(ws[i])
      invariant AllInv(p, ws) && Run(p, chunks, run) && |run| > 0 && run[|run| - 1] == ws
      decreases TotalWork(p, ws)
    {
      ghost var before := ws;
      ws := ScheduleOne(p, ws);
      RunExtends(p, chunks, run, ws);
      run := run + [ws];
    }
    FinishedRunTables(p, chunks, run);
    tables := seq(|ws|, i requires 0 <= i < |ws| => ws[i].table);
    assert tables == Tables(ws);
  }
}
