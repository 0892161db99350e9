/** internal/utils/coupon_validate.go: planning line-aligned chunks of a
    coupon file, reading one chunk into lines, reading a whole file chunk by
    chunk, and scanning lines for the coupon.

    Goroutines, channels and wait groups are abstracted away: the readers of
    one file run one after another, in chunk order, and what they push onto
    the line queue is returned as a sequence. The shared stop flag is an input
    that says, for every check a reader makes, whether it saw the flag set. */
module CouponValidate {
  import opened Common
  import opened Bufio

  /** The files the process can open, by path. A path that is absent is a
      file that os.Open (or File.Stat) fails on. */
  type FileSystem = map<string, seq<Byte>>

  /** One `[]int64{start, end}` pair of the plan: the byte range
      `[start, end)` of the file. */
  datatype Chunk = Chunk(start: nat, end: nat)

  /** Where the probe loop of SplitFileToNchunks stops when it starts at
      offset `p`: just past the first `'\n'` at or after `p`, or at the end
      of the file when ReadAt runs off it first. */
  function ProbeEnd(f: seq<Byte>, p: nat): (e: nat)
    ensures e <= |f|
    ensures p <= |f| ==> p <= e
    decreases |f| - p
  {
    if p >= |f| then |f|
    else if f[p] == NewLine then p + 1
    else ProbeEnd(f, p + 1)
  }

  /** The probe stops right after the first newline from `p` on, or at the
      end of the file when there is none. */
  lemma {:induction false} ProbeEndStops(f: seq<Byte>, p: nat)
    ensures || (ProbeEnd(f, p) == |f| && forall j :: p <= j < |f| ==> f[j] != NewLine)
            || (p < ProbeEnd(f, p) && f[ProbeEnd(f, p) - 1] == NewLine
                && forall j :: p <= j < ProbeEnd(f, p) - 1 ==> f[j] != NewLine)
    decreases |f| - p
  {
    if p < |f| && f[p] != NewLine {
      ProbeEndStops(f, p + 1);
    }
  }

  /** The probe and the scanner find the same newline: the probe stops
      one byte past the `'\n'` that ends the scanner's token, or at the end
      of the file when no newline follows. */
  lemma {:induction false} ProbeEndIsNextNewLine(f: seq<Byte>, p: nat)
    ensures ProbeEnd(f, p) == if NextNewLine(f, p) < |f| then NextNewLine(f, p) + 1 else |f|
    decreases |f| - p
  {
    if p < |f| && f[p] != NewLine {
      ProbeEndIsNextNewLine(f, p + 1);
    }
  }

  /** medianChunkSize: the naive chunk size, Go's `fileSize / int64(n)`
      for a positive `n`, counted out by repeated subtraction (its relation
      to `/` is ChunkSizeIsQuotient). */
  function ChunkSize(fileSize: nat, n: nat): nat
    requires n > 0
    decreases fileSize
  {
    if fileSize < n then 0 else 1 + ChunkSize(fileSize - n, n)
  }

  lemma MulAtLeast(a: int, n: int)
    requires a >= 1 && n > 0
    ensures a * n >= n
  {
    assert a * n == (a - 1) * n + n;
  }

  /** The quotient is the one `q` with `q * n <= f < q * n + n`. */
  lemma DivIs(f: nat, n: nat, q: nat)
    requires n > 0 && q * n <= f < q * n + n
    ensures f / n == q
  {
    var d := f / n;
    assert f == d * n + f % n && 0 <= f % n < n;
    if d < q {
      assert (q - d) * n == q * n - d * n;
      MulAtLeast(q - d, n);
      assert false;
    } else if d > q {
      assert (d - q) * n == d * n - q * n;
      MulAtLeast(d - q, n);
      assert false;
    }
  }

  lemma {:induction false} ChunkSizeBounds(f: nat, n: nat)
    requires n > 0
    ensures ChunkSize(f, n) * n <= f < ChunkSize(f, n) * n + n
    decreases f
  {
    if f >= n {
      ChunkSizeBounds(f - n, n);
      var q := ChunkSize(f - n, n);
      assert (q + 1) * n == q * n + n;
    }
  }

  /** ChunkSize divides as Go's `/` does on a non-negative size and a
      positive count. */
  lemma ChunkSizeIsQuotient(fileSize: nat, n: nat)
    requires n > 0
    ensures ChunkSize(fileSize, n) == fileSize / n
  {
    ChunkSizeBounds(fileSize, n);
    DivIs(fileSize, n, ChunkSize(fileSize, n));
  }

  /** The chunk list the outer loop of SplitFileToNchunks ends with when
      `chunks` have been appended so far (one per iteration, so the loop is
      at iteration `|chunks|`), the current chunk starts at `start` and the
      naive chunk size is `median`. Every iteration but the last appends the
      chunk up to where the probe stops; the last one appends the chunk
      that runs to the end of the file. */
  function PlanLoop(file: seq<Byte>, n: nat, median: nat, start: nat, chunks: seq<Chunk>): (r: seq<Chunk>)
    requires |chunks| < n && start <= |file|
    ensures |r| == n && r[n - 1].end == |file|
    ensures forall j :: 0 <= j < |chunks| ==> r[j] == chunks[j]
    ensures r[|chunks|].start == start
    decreases n - |chunks|
  {
    if |chunks| == n - 1 then chunks + [Chunk(start, |file|)]
    else
      var end := ProbeEnd(file, start + median);
      PlanLoop(file, n, median, end, chunks + [Chunk(start, end)])
  }

  /** The chunks the outer loop appends from iteration `i` on, as a
      recursive description: one chunk per remaining iteration, the first
      starting at `start` and the last ending at the end of the file. */
  function PlanFrom(file: seq<Byte>, n: nat, median: nat, i: nat, start: nat): (chunks: seq<Chunk>)
    requires i < n && start <= |file|
    ensures |chunks| == n - i
    ensures chunks[0].start == start
    ensures chunks[|chunks| - 1].end == |file|
    ensures forall j :: 0 <= j < |chunks| ==> chunks[j].start <= chunks[j].end <= |file|
    decreases n - i
  {
    if i == n - 1 then [Chunk(start, |file|)]
    else
      var end := ProbeEnd(file, start + median);
      [Chunk(start, end)] + PlanFrom(file, n, median, i + 1, end)
  }

  /** What the loop has appended stays in front; the rest is PlanFrom. */
  lemma {:induction false} PlanLoopAppends(file: seq<Byte>, n: nat, median: nat, start: nat, chunks: seq<Chunk>)
    requires |chunks| < n && start <= |file|
    ensures PlanLoop(file, n, median, start, chunks) == chunks + PlanFrom(file, n, median, |chunks|, start)
    decreases n - |chunks|
  {
    var i := |chunks|;
    if i < n - 1 {
      var end := ProbeEnd(file, start + median);
      PlanLoopAppends(file, n, median, end, chunks + [Chunk(start, end)]);
      ConcatAssoc(chunks, [Chunk(start, end)], PlanFrom(file, n, median, i + 1, end));
    } else {
      assert chunks + PlanFrom(file, n, median, i, start) == chunks + [Chunk(start, |file|)];
    }
  }

  /** The chunk plan SplitFileToNchunks returns for `file` and `n`: `n`
      chunks covering `[0, |file|)`. For a negative `n` the outer loop
      `for i := range n` runs no iteration. */
  function Plan(file: seq<Byte>, n: int): (chunks: seq<Chunk>)
    requires n != 0
    ensures n < 0 ==> chunks == []
    ensures n > 0 ==> |chunks| == n && chunks[0].start == 0 && chunks[n - 1].end == |file|
    ensures forall j :: 0 <= j < |chunks| ==> chunks[j].start <= chunks[j].end <= |file|
  {
    if n < 0 then []
    else
      PlanLoopAppends(file, n, ChunkSize(|file|, n), 0, []);
      assert [] + PlanFrom(file, n, ChunkSize(|file|, n), 0, 0) == PlanFrom(file, n, ChunkSize(|file|, n), 0, 0);
      PlanLoop(file, n, ChunkSize(|file|, n), 0, [])
  }

  lemma PlanIsPlanFrom(file: seq<Byte>, n: int)
    requires n > 0
    ensures Plan(file, n) == PlanFrom(file, n, ChunkSize(|file|, n), 0, 0)
  {
    PlanLoopAppends(file, n, ChunkSize(|file|, n), 0, []);
    assert [] + PlanFrom(file, n, ChunkSize(|file|, n), 0, 0) == PlanFrom(file, n, ChunkSize(|file|, n), 0, 0);
  }

  /** Chunk `j + 1` of PlanFrom starts where chunk `j` ends. */
  lemma {:induction false} PlanFromContiguous(file: seq<Byte>, n: nat, median: nat, i: nat, start: nat, j: nat)
    requires i < n && start <= |file| && j + 1 < n - i
    ensures PlanFrom(file, n, median, i, start)[j].end == PlanFrom(file, n, median, i, start)[j + 1].start
    decreases j
  {
    var chunks := PlanFrom(file, n, median, i, start);
    var end := ProbeEnd(file, start + median);
    var tail := PlanFrom(file, n, median, i + 1, end);
    assert chunks == [Chunk(start, end)] + tail;
    assert chunks[j + 1] == tail[j];
    if j > 0 {
      PlanFromContiguous(file, n, median, i + 1, end, j - 1);
      assert chunks[j] == tail[j - 1];
    }
  }

  /** The chunks follow one another with no gap and no overlap: each one
      starts where the one before it ends. */
  lemma PlanContiguous(file: seq<Byte>, n: int)
    requires n > 0
    ensures var chunks := Plan(file, n);
            forall j, k :: 0 <= j && k == j + 1 && k < |chunks| ==> chunks[j].end == chunks[k].start
  {
    PlanIsPlanFrom(file, n);
    forall j: nat | j + 1 < n
      ensures Plan(file, n)[j].end == Plan(file, n)[j + 1].start
    {
      PlanFromContiguous(file, n, ChunkSize(|file|, n), 0, 0, j);
    }
  }

  /** Chunk `j` of PlanFrom, when it is not the last, ends where the probe,
      started `median` bytes into the chunk, stops. */
  lemma {:induction false} PlanFromCuts(file: seq<Byte>, n: nat, median: nat, i: nat, start: nat, j: nat)
    requires i < n && start <= |file| && j + 1 < n - i
    ensures PlanFrom(file, n, median, i, start)[j].end
         == ProbeEnd(file, PlanFrom(file, n, median, i, start)[j].start + median)
    decreases j
  {
    var chunks := PlanFrom(file, n, median, i, start);
    var end := ProbeEnd(file, start + median);
    var tail := PlanFrom(file, n, median, i + 1, end);
    assert chunks == [Chunk(start, end)] + tail;
    if j > 0 {
      PlanFromCuts(file, n, median, i + 1, end, j - 1);
      assert chunks[j] == tail[j - 1];
    }
  }

  /** The inner cuts of the plan: chunk `j` (not the last) ends just after
      the first newline at or after the offset `|file| / n` bytes into the
      chunk, or at the end of the file when there is none. */
  lemma PlanCuts(file: seq<Byte>, n: int, j: nat)
    requires n > 0 && j < n - 1
    ensures var c := Plan(file, n)[j];
            c.end == ProbeEnd(file, c.start + ChunkSize(|file|, n))
    ensures var c := Plan(file, n)[j];
            || (c.end == |file| && forall b :: c.start + ChunkSize(|file|, n) <= b < |file| ==> file[b] != NewLine)
            || (c.start + ChunkSize(|file|, n) < c.end && file[c.end - 1] == NewLine
                && forall b :: c.start + ChunkSize(|file|, n) <= b < c.end - 1 ==> file[b] != NewLine)
  {
    PlanIsPlanFrom(file, n);
    PlanFromCuts(file, n, ChunkSize(|file|, n), 0, 0, j);
    var c := Plan(file, n)[j];
    ProbeEndStops(file, c.start + ChunkSize(|file|, n));
  }

  /** The probe loop of SplitFileToNchunks: read one byte at a time from
      offset `at` until a newline has been read or ReadAt fails at the end of
      the file. */
  method Probe(file: seq<Byte>, at: nat) returns (end: nat)
    ensures end == ProbeEnd(file, at)
  {
    end := at;
    while true
      invariant at <= end
      invariant ProbeEnd(file, end) == ProbeEnd(file, at)
      decreases |file| - end
    {
      if end >= |file| {
        // ReadAt fails at or past the end of the file
        end := |file|;
        return;
      }
      if file[end] == NewLine {
        end := end + 1;
        return;
      }
      end := end + 1;
    }
  }

  /** SplitFileToNchunks: open the file, read its size, and cut it into `n`
      ranges whose inner cuts sit just after a newline. A zero `n` makes the
      Go code divide by zero, so it is excluded. */
  method SplitFileToNchunks(fs: FileSystem, filePath: string, n: int) returns (r: Result<seq<Chunk>>)
    requires n != 0
    ensures filePath !in fs ==> r == Err(OpenFailed(filePath))
    ensures filePath in fs ==> r == Ok(Plan(fs[filePath], n))
  {
    if filePath !in fs {
      return Err(OpenFailed(filePath));
    }
    if n < 0 {
      // `for i := range n` runs no iteration
      return Ok([]);
    }
    var file := fs[filePath];
    var fileSize := |file|;
    var medianChunkSize := ChunkSize(fileSize, n);
    var chunks: seq<Chunk> := [];
    var start: nat := 0;
    var i: nat := 0;
    while i < n - 1
      invariant i == |chunks| < n && start <= fileSize
      invariant PlanLoop(file, n, medianChunkSize, start, chunks) == PlanLoop(file, n, medianChunkSize, 0, [])
    {
      var end := Probe(file, start + medianChunkSize);
      chunks := chunks + [Chunk(start, end)];
      start := end;
      i := i + 1;
    }
    // the last chunk runs to the end of the file
    chunks := chunks + [Chunk(start, fileSize)];
    return Ok(chunks);
  }

  /** The bytes of the chunks, one after another. */
  function Pieces(file: seq<Byte>, chunks: seq<Chunk>): seq<Byte>
    requires forall j :: 0 <= j < |chunks| ==> chunks[j].start <= chunks[j].end <= |file|
    decreases |chunks|
  {
    if chunks == [] then [] else file[chunks[0].start..chunks[0].end] + Pieces(file, chunks[1..])
  }

  lemma {:induction false} PiecesFrom(file: seq<Byte>, n: nat, median: nat, i: nat, start: nat)
    requires i < n && start <= |file|
    ensures Pieces(file, PlanFrom(file, n, median, i, start)) == file[start..]
    decreases n - i
  {
    var chunks := PlanFrom(file, n, median, i, start);
    if i == n - 1 {
      assert chunks[1..] == [];
    } else {
      var end := ProbeEnd(file, start + median);
      assert chunks[1..] == PlanFrom(file, n, median, i + 1, end);
      PiecesFrom(file, n, median, i + 1, end);
      SliceSplit(file, start, end);
    }
  }

  /** The plan partitions the file: its chunks, read one after another,
      give back the whole file, with no byte missing or read twice. */
  lemma PlanReassembles(file: seq<Byte>, n: int)
    requires n > 0
    ensures Pieces(file, Plan(file, n)) == file
  {
    PlanIsPlanFrom(file, n);
    PiecesFrom(file, n, ChunkSize(|file|, n), 0, 0);
  }

  /** The first check, counting from `k`, at which a reader sees the stop
      flag set; `count` when it never does before its lines run out. */
  function FirstStop(count: nat, stopped: nat -> bool, k: nat): (j: nat)
    requires k <= count
    ensures k <= j <= count
    ensures forall i :: k <= i < j ==> !stopped(i)
    ensures j < count ==> stopped(j)
    decreases count - k
  {
    if k == count || stopped(k) then k else FirstStop(count, stopped, k + 1)
  }

  /** What a reader pushes of `lines` when `stopped(k)` is what it sees on
      checking the stop flag before its `k`-th line: the lines up to the
      first check that sees the flag set, and nothing from there on. */
  function Emitted(lines: seq<Line>, stopped: nat -> bool): (out: seq<Line>)
    ensures |out| <= |lines| && out == lines[..|out|]
    ensures forall k :: 0 <= k < |out| ==> !stopped(k)
    ensures |out| < |lines| ==> stopped(|out|)
  {
    lines[..FirstStop(|lines|, stopped, 0)]
  }

  /** With the flag never set, a reader pushes every line. */
  lemma EmittedAll(lines: seq<Line>, stopped: nat -> bool)
    requires forall k: nat :: !stopped(k)
    ensures Emitted(lines, stopped) == lines
  {
  }

  /** The stop checks alone decide what a reader pushes: when `lines` is
      `pushed + rest`, no check before line `|pushed|` sees the flag set and
      either the check at `|pushed|` does or no line is left, the reader
      pushes exactly `pushed`. */
  lemma EmittedIs(lines: seq<Line>, stopped: nat -> bool, pushed: seq<Line>, rest: seq<Line>)
    requires lines == pushed + rest
    requires forall k :: 0 <= k < |pushed| ==> !stopped(k)
    requires rest != [] ==> stopped(|pushed|)
    ensures Emitted(lines, stopped) == pushed
  {
    assert lines[..|pushed|] == pushed;
  }

  /** The state of the scanning loop of ReadFileChunk: `pushed` are the
      lines before offset `pos`, and no check so far saw the stop flag. */
  predicate Scanning(buf: seq<Byte>, stopped: nat -> bool, pos: nat, pushed: seq<Line>) {
    && pos <= |buf|
    && ScanLines(buf) == pushed + Lines(ScanFrom(buf, pos))
    && forall k :: 0 <= k < |pushed| ==> !stopped(k)
  }

  /** One more line pushed, when the check before it does not see the flag. */
  lemma ScanningStep(buf: seq<Byte>, stopped: nat -> bool, pos: nat, pushed: seq<Line>)
    requires Scanning(buf, stopped, pos, pushed) && pos < |buf| && !stopped(|pushed|)
    ensures Scanning(buf, stopped, NextToken(buf, pos).1, pushed + [NextToken(buf, pos).0])
  {
    ScanStep(buf, pos, pushed);
  }

  /** The loop ends when the buffer is used up or a check sees the flag;
      either way the reader has pushed exactly what Emitted says. */
  lemma ScanningDone(buf: seq<Byte>, stopped: nat -> bool, pos: nat, pushed: seq<Line>)
    requires Scanning(buf, stopped, pos, pushed) && (pos == |buf| || stopped(|pushed|))
    ensures pushed == Emitted(ScanLines(buf), stopped)
  {
    EmittedIs(ScanLines(buf), stopped, pushed, Lines(ScanFrom(buf, pos)));
  }

  /** The scanning loop of ReadFileChunk: take the lines of `buf` one by
      one, checking the stop flag before pushing each; the first check that
      sees it set ends the loop. */
  method PushLines(buf: seq<Byte>, stopped: nat -> bool) returns (pushed: seq<Line>)
    ensures pushed == Emitted(ScanLines(buf), stopped)
  {
    pushed := [];
    var pos := 0;
    while pos < |buf| && !stopped(|pushed|)
      invariant Scanning(buf, stopped, pos, pushed)
      decreases |buf| - pos
    {
      var token := NextToken(buf, pos);
      ScanningStep(buf, stopped, pos, pushed);
      pushed := pushed + [token.0];
      pos := token.1;
    }
    ScanningDone(buf, stopped, pos, pushed);
  }

  /** ReadFileChunk: read the bytes `[from, to)` of the file into a buffer
      and push its lines onto the queue, checking the stop flag before each
      one. `make([]byte, to-from)` panics for `to < from`: excluded. */
  method ReadFileChunk(fs: FileSystem, filePath: string, from: nat, to: nat, stopped: nat -> bool)
    returns (r: Result<seq<Line>>)
    requires from <= to
    ensures filePath !in fs ==> r == Err(OpenFailed(filePath))
    ensures filePath in fs && from < to && |fs[filePath]| < to ==> r == Err(ReadFailed(filePath))
    ensures filePath in fs && from == to ==> r == Ok([])
    ensures filePath in fs && to <= |fs[filePath]| ==>
              r == Ok(Emitted(ScanLines(fs[filePath][from..to]), stopped))
  {
    if filePath !in fs {
      return Err(OpenFailed(filePath));
    }
    var file := fs[filePath];
    if from < to && |file| < to {
      // ReadAt reads fewer than to - from bytes and reports io.EOF
      return Err(ReadFailed(filePath));
    }
    var buf := if from == to then [] else file[from..to];
    var pushed := PushLines(buf, stopped);
    return Ok(pushed);
  }

  /** The stop flag as the readers of one file see it: `stopped(c, k)` is
      what the reader of chunk `c` sees before its `k`-th line. */
  type StopSignal = (nat, nat) -> bool

  /** A stop flag that is never set. */
  function NeverStopped(): StopSignal {
    (c: nat, k: nat) => false
  }

  /** The checks made by the reader of chunk `c` alone. */
  function ReaderSignal(stopped: StopSignal, c: nat): nat -> bool {
    (k: nat) => stopped(c, k)
  }

  /** What the readers of `chunks` push, in chunk order, the first of them
      being the reader of chunk number `first`. */
  function Emissions(file: seq<Byte>, chunks: seq<Chunk>, stopped: StopSignal, first: nat): seq<Line>
    decreases |chunks|
  {
    if chunks == [] then []
    else ReaderPushes(file, chunks[0], ReaderSignal(stopped, first)) + Emissions(file, chunks[1..], stopped, first + 1)
  }

  /** What the reader of chunk `c` pushes: the lines its scan emits, or
      nothing when the chunk runs past the end of the file, since the read
      then fails before the scan starts (and ReadFile drops that error). */
  function ReaderPushes(file: seq<Byte>, c: Chunk, stopped: nat -> bool): seq<Line> {
    if c.start <= c.end <= |file| then Emitted(ScanLines(file[c.start..c.end]), stopped) else []
  }

  /** A reader pushes a prefix of its chunk's lines, and nothing at all
      when its chunk does not lie inside the file. */
  lemma ReaderPushesPrefix(file: seq<Byte>, c: Chunk, stopped: nat -> bool)
    ensures !(c.start <= c.end <= |file|) ==> ReaderPushes(file, c, stopped) == []
    ensures c.start <= c.end <= |file| ==> ReaderPushes(file, c, stopped) <= ScanLines(file[c.start..c.end])
  {
  }

  /** One reader more: the queue grows by what the reader of chunk `c` pushes. */
  lemma EmissionsStep(file: seq<Byte>, chunks: seq<Chunk>, stopped: StopSignal, c: nat, queue: seq<Line>)
    requires c < |chunks|
    ensures queue + Emissions(file, chunks[c..], stopped, c)
         == (queue + ReaderPushes(file, chunks[c], ReaderSignal(stopped, c)))
            + Emissions(file, chunks[c + 1..], stopped, c + 1)
  {
    assert chunks[c..][1..] == chunks[c + 1..];
    ConcatAssoc(queue, ReaderPushes(file, chunks[c], ReaderSignal(stopped, c)),
                Emissions(file, chunks[c + 1..], stopped, c + 1));
  }

  /** ReadFile: plan the chunks and start one reader per chunk. The readers'
      own errors are dropped by the `go` statement; a planning error is
      returned before any reader starts. */
  method ReadFile(fs: FileSystem, filePath: string, numberOfThreads: int, stopped: StopSignal)
    returns (r: Result<seq<Line>>)
    requires numberOfThreads != 0
    ensures filePath !in fs ==> r == Err(OpenFailed(filePath))
    ensures filePath in fs ==>
              r == Ok(Emissions(fs[filePath], Plan(fs[filePath], numberOfThreads), stopped, 0))
  {
    var planned := SplitFileToNchunks(fs, filePath, numberOfThreads);
    if planned.Err? {
      return Err(planned.error);
    }
    var queue := RunReaders(fs, filePath, planned.value, stopped);
    return Ok(queue);
  }

  /** The `for _, chunk := range chunks` loop of ReadFile: the reader of
      each chunk runs in turn and appends its lines to the queue. */
  method RunReaders(fs: FileSystem, filePath: string, chunks: seq<Chunk>, stopped: StopSignal)
    returns (queue: seq<Line>)
    requires filePath in fs
    requires forall j :: 0 <= j < |chunks| ==> chunks[j].start <= chunks[j].end <= |fs[filePath]|
    ensures queue == Emissions(fs[filePath], chunks, stopped, 0)
  {
    ghost var file := fs[filePath];
    queue := [];
    var c := 0;
    while c < |chunks|
      invariant c <= |chunks|
      invariant queue + Emissions(file, chunks[c..], stopped, c) == Emissions(file, chunks, stopped, 0)
    {
      var chunk := chunks[c];
      var read := ReadFileChunk(fs, filePath, chunk.start, chunk.end, ReaderSignal(stopped, c));
      assert read == Ok(ReaderPushes(file, chunk, ReaderSignal(stopped, c)));
      EmissionsStep(file, chunks, stopped, c, queue);
      queue := queue + read.value;
      c := c + 1;
    }
    assert chunks[c..] == [];
    assert queue + Emissions(file, chunks[c..], stopped, c) == queue;
  }

  /** The reader of a chunk pushes all of its lines when the flag is
      never set. */
  lemma NeverStoppedReader(lines: seq<Line>, c: nat)
    ensures Emitted(lines, ReaderSignal(NeverStopped(), c)) == lines
  {
    var signal := ReaderSignal(NeverStopped(), c);
    assert forall k: nat :: !signal(k);
    EmittedAll(lines, signal);
  }

  /** Scanning from `start` is scanning up to the probe's cut and then from
      the cut on: the cut never falls inside a line. */
  lemma ScanAcrossCut(file: seq<Byte>, start: nat, at: nat)
    requires start <= at
    requires start <= |file|
    ensures ScanLines(file[start..])
         == ScanLines(file[start..ProbeEnd(file, at)]) + ScanLines(file[ProbeEnd(file, at)..])
  {
    var end := ProbeEnd(file, at);
    ProbeEndStops(file, at);
    var a, b := file[start..end], file[end..];
    if end < |file| {
      assert a[|a| - 1] == file[end - 1];
    } else {
      assert b == [];
    }
    ScanLinesAppend(a, b);
    SliceSplit(file, start, end);
  }

  /** The readers of the chunks of PlanFrom push, with the flag never set,
      every line of the file from `start` on. */
  lemma {:induction false} EmissionsFrom(file: seq<Byte>, n: nat, median: nat, i: nat, start: nat, first: nat)
    requires i < n && start <= |file|
    ensures Emissions(file, PlanFrom(file, n, median, i, start), NeverStopped(), first) == ScanLines(file[start..])
    decreases n - i
  {
    var chunks := PlanFrom(file, n, median, i, start);
    if i == n - 1 {
      assert chunks == [Chunk(start, |file|)];
      EmissionsOne(file, start, first);
    } else {
      var end := ProbeEnd(file, start + median);
      var tail := PlanFrom(file, n, median, i + 1, end);
      assert chunks == [Chunk(start, end)] + tail;
      EmissionsFrom(file, n, median, i + 1, end, first + 1);
      EmissionsCut(file, start, start + median, tail, first);
    }
  }

  /** A chunk cut by the probe from `at`, in front of chunks whose readers
      push the lines after the cut: together they push the lines from
      `start` on. */
  lemma EmissionsCut(file: seq<Byte>, start: nat, at: nat, tail: seq<Chunk>, first: nat)
    requires start <= at && start <= |file|
    requires Emissions(file, tail, NeverStopped(), first + 1) == ScanLines(file[ProbeEnd(file, at)..])
    ensures Emissions(file, [Chunk(start, ProbeEnd(file, at))] + tail, NeverStopped(), first)
         == ScanLines(file[start..])
  {
    ProbeEndStops(file, at);
    EmissionsCons(file, Chunk(start, ProbeEnd(file, at)), tail, first);
    ScanAcrossCut(file, start, at);
  }

  /** The reader of the one chunk from `start` to the end of the file. */
  lemma EmissionsOne(file: seq<Byte>, start: nat, first: nat)
    requires start <= |file|
    ensures Emissions(file, [Chunk(start, |file|)], NeverStopped(), first) == ScanLines(file[start..])
  {
    var here := ScanLines(file[start..|file|]);
    NeverStoppedReader(here, first);
    assert [Chunk(start, |file|)][1..] == [];
    assert file[start..|file|] == file[start..];
    assert here + [] == here;
  }

  /** One chunk in front of the others: its reader pushes all its lines
      first. */
  lemma EmissionsCons(file: seq<Byte>, c: Chunk, tail: seq<Chunk>, first: nat)
    requires c.start <= c.end <= |file|
    ensures Emissions(file, [c] + tail, NeverStopped(), first)
         == ScanLines(file[c.start..c.end]) + Emissions(file, tail, NeverStopped(), first + 1)
  {
    NeverStoppedReader(ScanLines(file[c.start..c.end]), first);
    assert ([c] + tail)[1..] == tail;
  }

  /** No line is lost or split: with the stop flag never set, the readers
      of all chunks together push exactly the lines of the whole file, in
      file order. */
  lemma ReadFileDeliversEveryLine(file: seq<Byte>, n: int)
    requires n > 0
    ensures Emissions(file, Plan(file, n), NeverStopped(), 0) == ScanLines(file)
  {
    PlanIsPlanFrom(file, n);
    EmissionsFrom(file, n, ChunkSize(|file|, n), 0, 0, 0);
  }

  /** ScanForCoupon: `numberOfThreads` consumers drain the queue; a
      consumer that takes a line equal to the expected coupon stores true
      into the file's flag and stops. The consumers are run one after another
      here, so the first of them takes lines until the match; the flag ends
      up the same whichever consumer takes the matching line. With no
      consumer at all nothing is taken and the flag stays false. Go returns
      only the flag: the ghost `consumed` witnesses how many lines the
      consumer took before it stopped. */
  method ScanForCoupon(numberOfThreads: int, couponQueue: seq<Line>, expectedCoupon: Line)
    returns (flag: bool, ghost consumed: nat)
    ensures numberOfThreads <= 0 ==> !flag && consumed == 0
    ensures numberOfThreads > 0 ==> flag == (expectedCoupon in couponQueue)
    ensures consumed <= |couponQueue|
    ensures numberOfThreads > 0 && expectedCoupon in couponQueue ==>
              0 < consumed && couponQueue[consumed - 1] == expectedCoupon
              && expectedCoupon !in couponQueue[..consumed - 1]
    ensures numberOfThreads > 0 && expectedCoupon !in couponQueue ==> consumed == |couponQueue|
  {
    flag := false;
    consumed := 0;
    if numberOfThreads <= 0 {
      return;
    }
    var taken := 0;
    while taken < |couponQueue|
      invariant taken <= |couponQueue| && consumed == taken
      invariant expectedCoupon !in couponQueue[..taken]
      invariant !flag
    {
      var coupon := couponQueue[taken];
      taken := taken + 1;
      consumed := taken;
      if coupon == expectedCoupon {
        flag := true;
        break;
      }
    }
  }

  /** A token never holds a `'\n'`: its bytes lie before the first newline
      from where it starts, and dropping the carriage return only takes
      bytes away. */
  lemma TokenHasNoNewLine(data: seq<Byte>, p: nat, k: nat)
    requires p < |data| && k == NextNewLine(data, p)
    ensures NewLine !in DropCR(Segment(data, p, k))
  {
    var seg := Segment(data, p, k);
    SegmentIsSlice(data, p, k);
    NextNewLineSkips(data, p);
    assert NewLine !in seg by {
      forall j | 0 <= j < |seg| ensures seg[j] != NewLine {
        assert seg[j] == data[p + j];
      }
    }
    DropCRRemoves(seg);
    if |seg| > 0 && seg[|seg| - 1] == CarriageReturn {
      assert forall x :: x in DropCR(seg) ==> x in DropCR(seg) + [CarriageReturn];
    }
  }

  /** No token of a scan from `p` on holds a `'\n'`. */
  lemma {:induction false} ScanFromNoNewLine(data: seq<Byte>, p: nat)
    ensures forall i :: 0 <= i < |Lines(ScanFrom(data, p))| ==> NewLine !in Lines(ScanFrom(data, p))[i]
    decreases |data| - p
  {
    if p < |data| {
      var k := NextNewLine(data, p);
      var next := After(data, k);
      ScanFromStep(data, p, k, next);
      TokenHasNoNewLine(data, p, k);
      ScanFromNoNewLine(data, next);
      var rest := Lines(ScanFrom(data, next));
      assert Lines(ScanFrom(data, p)) == [DropCR(Segment(data, p, k))] + rest;
      forall i | 0 <= i < |Lines(ScanFrom(data, p))|
        ensures NewLine !in Lines(ScanFrom(data, p))[i]
      {
        if i > 0 {
          assert Lines(ScanFrom(data, p))[i] == rest[i - 1];
        }
      }
    }
  }

  /** The lines of a buffer hold no `'\n'`: the scanner splits at every one. */
  lemma ScanLinesHaveNoNewLine(data: seq<Byte>)
    ensures forall i :: 0 <= i < |ScanLines(data)| ==> NewLine !in ScanLines(data)[i]
  {
    ScanFromNoNewLine(data, 0);
  }
}
