/** The line splitting the chunk reader relies on: Go's `bufio.Scanner`
    with its default split function `bufio.ScanLines`, over an in-memory
    buffer. A line ends at `'\n'`; one `'\r'` just before it is dropped; a
    last segment without `'\n'` is a line only when it is not empty. */
module Bufio {
  import opened Common

  /** dropCR: remove one trailing carriage return. */
  function DropCR(s: seq<Byte>): seq<Byte> {
    if |s| > 0 && s[|s| - 1] == CarriageReturn then s[..|s| - 1] else s
  }

  /** DropCR takes off exactly one trailing `'\r'` when there is one, and
      otherwise leaves the bytes alone. */
  lemma {:induction false} DropCRRemoves(s: seq<Byte>)
    ensures |s| > 0 && s[|s| - 1] == CarriageReturn ==> DropCR(s) + [CarriageReturn] == s
    ensures !(|s| > 0 && s[|s| - 1] == CarriageReturn) ==> DropCR(s) == s
  {
    if |s| > 0 && s[|s| - 1] == CarriageReturn {
      assert s == s[..|s| - 1] + [s[|s| - 1]];
    }
  }

  /** The bytes of `data` from offset `p` up to, not including, `k`, taken
      one at a time: the slice `data[p..k]` (SegmentIsSlice). */
  function Segment(data: seq<Byte>, p: nat, k: nat): seq<Byte>
    requires p <= k <= |data|
    decreases k - p
  {
    if p == k then [] else [data[p]] + Segment(data, p + 1, k)
  }

  lemma {:induction false} SegmentIsSlice(data: seq<Byte>, p: nat, k: nat)
    requires p <= k <= |data|
    ensures Segment(data, p, k) == data[p..k]
    decreases k - p
  {
    if p < k {
      SegmentIsSlice(data, p + 1, k);
      assert data[p..k] == [data[p]] + data[p + 1..k];
    }
  }

  /** The bytes of `b` from `q` to `k`, read through `a + b` at the offsets
      `x` and `y` they have there. */
  lemma {:induction false} SegmentShift(a: seq<Byte>, b: seq<Byte>, q: nat, k: nat, x: nat, y: nat)
    requires q <= k <= |b| && x == |a| + q && y == |a| + k
    ensures Segment(a + b, x, y) == Segment(b, q, k)
    decreases k - q
  {
    if q < k {
      assert (a + b)[x] == b[q];
      SegmentShift(a, b, q + 1, k, x + 1, y);
    }
  }

  /** The bytes of `a` read through `a + b`. */
  lemma {:induction false} SegmentPrefix(a: seq<Byte>, b: seq<Byte>, p: nat, k: nat)
    requires p <= k <= |a|
    ensures Segment(a + b, p, k) == Segment(a, p, k)
    decreases k - p
  {
    if p < k {
      assert (a + b)[p] == a[p];
      SegmentPrefix(a, b, p + 1, k);
    }
  }

  /** The tokens a scan yields, in order: `Then(token, more)` is `token`
      followed by the tokens in `more`. */
  datatype Tokens = Done | Then(token: Line, more: Tokens)

  /** The tokens as a sequence. */
  function Lines(t: Tokens): seq<Line> {
    match t
    case Done => []
    case Then(token, more) => [token] + Lines(more)
  }

  /** The tokens of `x`, then those of `y`. */
  function Concat(x: Tokens, y: Tokens): (r: Tokens) {
    match x
    case Done => y
    case Then(token, more) => Then(token, Concat(more, y))
  }

  lemma {:induction false} LinesConcat(x: Tokens, y: Tokens)
    ensures Lines(Concat(x, y)) == Lines(x) + Lines(y)
  {
    match x
    case Done =>
      assert Lines(x) + Lines(y) == Lines(y);
    case Then(token, more) =>
      LinesConcat(more, y);
      ConcatAssoc([token], Lines(more), Lines(y));
  }

  /** Where the scan goes on after a token that runs to `k`: just past the
      newline there, or the end of the buffer when `k` is that end. */
  function After(data: seq<Byte>, k: nat): nat {
    if k < |data| then k + 1 else |data|
  }

  /** The tokens `scanner.Scan()` yields, in order, when scanning the
      buffer `data` from offset `p` on: the bytes up to the next newline,
      less a trailing `'\r'`, then the tokens after that newline; at the end
      of the buffer the rest is the last token. */
  function ScanFrom(data: seq<Byte>, p: nat): Tokens
    decreases |data| - p
  {
    if p >= |data| then Done
    else
      var k := NextNewLine(data, p);
      Then(DropCR(Segment(data, p, k)), if k < |data| then ScanFrom(data, k + 1) else Done)
  }

  /** The tokens `scanner.Scan()` yields, in order, for the buffer `data`. */
  function ScanLines(data: seq<Byte>): seq<Line> {
    Lines(ScanFrom(data, 0))
  }

  /** One call of `scanner.Scan()` on the buffer from offset `pos`: the
      token, and the offset where the next call starts. */
  function NextToken(buf: seq<Byte>, pos: nat): (t: (Line, nat))
    requires pos < |buf|
    ensures pos < t.1 <= |buf|
  {
    var k := NextNewLine(buf, pos);
    (DropCR(Segment(buf, pos, k)), After(buf, k))
  }

  /** Scanning from `p`: the token up to the first newline `k`, then the
      scan from just after it. */
  lemma {:induction false} ScanFromStep(data: seq<Byte>, p: nat, k: nat, next: nat)
    requires p < |data| && k == NextNewLine(data, p) && next == After(data, k)
    ensures ScanFrom(data, p) == Then(DropCR(Segment(data, p, k)), ScanFrom(data, next))
  {
  }

  /** Scanning token by token from `pos`: the next token, then the tokens
      from where it ends. */
  lemma {:induction false} NextTokenScans(buf: seq<Byte>, pos: nat)
    requires pos < |buf|
    ensures ScanFrom(buf, pos) == Then(NextToken(buf, pos).0, ScanFrom(buf, NextToken(buf, pos).1))
  {
    var k := NextNewLine(buf, pos);
    var t := NextToken(buf, pos);
    assert t == (DropCR(Segment(buf, pos, k)), After(buf, k));
    ScanFromStep(buf, pos, k, After(buf, k));
  }

  /** One more token taken off the buffer keeps `done + rest == all`. */
  lemma {:induction false} ScanStep(buf: seq<Byte>, pos: nat, done: seq<Line>)
    requires pos < |buf|
    requires ScanLines(buf) == done + Lines(ScanFrom(buf, pos))
    ensures ScanLines(buf) == (done + [NextToken(buf, pos).0]) + Lines(ScanFrom(buf, NextToken(buf, pos).1))
  {
    var t := NextToken(buf, pos);
    NextTokenScans(buf, pos);
    assert Lines(ScanFrom(buf, pos)) == [t.0] + Lines(ScanFrom(buf, t.1));
    ConcatAssoc(done, [t.0], Lines(ScanFrom(buf, t.1)));
  }

  /** Bytes in front do not change how the bytes after them scan: from
      offset `at`, just past the bytes of `a`, `a + b` scans as `b` does from
      `q`. */
  lemma {:induction false} ScanFromShift(a: seq<Byte>, b: seq<Byte>, q: nat, at: nat)
    requires q <= |b| && at == |a| + q
    ensures ScanFrom(a + b, at) == ScanFrom(b, q)
    decreases |b| - q
  {
    if q < |b| {
      var k := NextNewLine(b, q);
      NextNewLineAfter(a, b, q);
      var next := After(b, k);
      ScanFromShift(a, b, next, |a| + next);
      SegmentShift(a, b, q, k, at, |a| + k);
      ShiftStep(a + b, b, q, k, next, at, |a|);
    }
  }

  /** The step of ScanFromShift over one token, for `c == a + b` and
      `d == |a|`. */
  lemma {:induction false} ShiftStep(c: seq<Byte>, b: seq<Byte>, q: nat, k: nat, next: nat, at: nat, d: nat)
    requires q < |b| && k == NextNewLine(b, q) && next == After(b, k)
    requires |c| == d + |b| && at == d + q
    requires NextNewLine(c, at) == d + k
    requires Segment(c, at, d + k) == Segment(b, q, k)
    requires ScanFrom(c, d + next) == ScanFrom(b, next)
    ensures ScanFrom(c, at) == ScanFrom(b, q)
  {
    ScanFromStep(c, at, d + k, d + next);
    ScanFromStep(b, q, k, next);
  }

  /** Scanning on from `p` across a cut made just after a newline: the
      tokens of `a` from `p`, then the tokens of `b`. */
  lemma {:induction false} ScanFromAppend(a: seq<Byte>, b: seq<Byte>, p: nat)
    requires p <= |a|
    requires a == [] || a[|a| - 1] == NewLine
    ensures ScanFrom(a + b, p) == Concat(ScanFrom(a, p), ScanFrom(b, 0))
    decreases |a| - p
  {
    if p == |a| {
      ScanFromShift(a, b, 0, p);
    } else {
      var k := NextNewLine(a, p);
      NextNewLineSkips(a, p);
      assert a[|a| - 1] == NewLine && k < |a|;
      NextNewLineAppend(a, b, p);
      ScanFromAppend(a, b, k + 1);
      SegmentPrefix(a, b, p, k);
      AppendStep(a, b, a + b, p, k);
    }
  }

  /** The step of ScanFromAppend over one line of `a`, for `c == a + b`. */
  lemma {:induction false} AppendStep(a: seq<Byte>, b: seq<Byte>, c: seq<Byte>, p: nat, k: nat)
    requires p <= k < |a| <= |c| && k == NextNewLine(a, p) && NextNewLine(c, p) == k
    requires Segment(c, p, k) == Segment(a, p, k)
    requires ScanFrom(c, k + 1) == Concat(ScanFrom(a, k + 1), ScanFrom(b, 0))
    ensures ScanFrom(c, p) == Concat(ScanFrom(a, p), ScanFrom(b, 0))
  {
    ScanFromStep(c, p, k, k + 1);
    ScanFromStep(a, p, k, k + 1);
  }

  /** Lines never straddle a cut made just after a newline: scanning the
      two halves separately gives the same lines, in the same order. */
  lemma {:induction false} ScanLinesAppend(a: seq<Byte>, b: seq<Byte>)
    requires a == [] || b == [] || a[|a| - 1] == NewLine
    ensures ScanLines(a + b) == ScanLines(a) + ScanLines(b)
  {
    if b == [] {
      assert a + b == a;
      assert ScanLines(b) == [];
    } else {
      ScanFromAppend(a, b, 0);
      LinesConcat(ScanFrom(a, 0), ScanFrom(b, 0));
    }
  }

  /** The lines joined by `'\n'`, with no newline after the last one: the
      layout of the coupon files. */
  function JoinLines(lines: seq<Line>): (data: seq<Byte>)
    decreases |lines|
  {
    if |lines| == 0 then []
    else if |lines| == 1 then lines[0]
    else lines[0] + [NewLine] + JoinLines(lines[1..])
  }

  /** A line that ScanLines hands back unchanged: no newline in it and no
      carriage return at its end. */
  predicate PlainLine(l: Line) {
    NewLine !in l && (|l| == 0 || l[|l| - 1] != CarriageReturn)
  }

  /** Round trip: scanning a file of plain lines whose last line is not
      empty gives back exactly those lines. */
  lemma {:induction false} ScanJoinedLines(lines: seq<Line>)
    requires forall i :: 0 <= i < |lines| ==> PlainLine(lines[i])
    requires |lines| > 0 ==> lines[|lines| - 1] != []
    ensures ScanLines(JoinLines(lines)) == lines
    decreases |lines|
  {
    if |lines| == 1 {
      var line := lines[0];
      assert PlainLine(line);
      NextNewLineIs(line, 0, |line|);
      ScanFromStep(line, 0, |line|, |line|);
      SegmentIsSlice(line, 0, |line|);
      assert line[0..|line|] == line;
      assert ScanFrom(line, 0) == Then(line, Done);
      assert Lines(Then(line, Done)) == [line];
      assert lines == [line];
    } else if |lines| > 1 {
      var head := lines[0];
      assert PlainLine(head);
      var front := head + [NewLine];
      var rest := JoinLines(lines[1..]);
      var data := front + rest;
      assert data == JoinLines(lines);
      HeadLine(head, rest);
      ScanFromStep(data, 0, |head|, |head| + 1);
      ScanFromShift(front, rest, 0, |head| + 1);
      assert ScanFrom(data, 0) == Then(head, ScanFrom(rest, 0));
      ScanJoinedLines(lines[1..]);
      assert lines == [head] + lines[1..];
    } else {
      assert ScanFrom([], 0) == Done;
    }
  }

  /** The first line of a line, a newline and more bytes. */
  lemma {:induction false} HeadLine(head: Line, rest: seq<Byte>)
    requires PlainLine(head)
    ensures NextNewLine((head + [NewLine]) + rest, 0) == |head|
    ensures Segment((head + [NewLine]) + rest, 0, |head|) == head
  {
    var front := head + [NewLine];
    var data := front + rest;
    forall j | 0 <= j < |head|
      ensures data[j] != NewLine
    {
      assert data[j] == head[j];
    }
    NextNewLineIs(data, 0, |head|);
    SegmentPrefix(front, rest, 0, |head|);
    SegmentIsSlice(front, 0, |head|);
    assert front[0..|head|] == head;
  }
}
