/** The coupon file of internal/utils/coupon_validate_test.go: twelve
    coupons separated by `'\n'`, with no newline after the last one, and
    what the planner and the readers make of it. */
module CouponFixture {
  import opened Common
  import opened Bufio
  import opened CouponValidate

  /** The coupons of the test file, in file order, as the bytes of their
      ASCII digits. */
  function Coupons(): (lines: seq<Line>)
    ensures |lines| == 12
  {
    [
      [49, 49, 50, 51, 52, 53, 54, 55, 56],  // "112345678"
      [50, 49, 50, 51, 52, 53, 54, 55, 56, 57],  // "2123456789"
      [51, 49, 50, 51, 52, 53, 54, 55, 56, 57, 49, 48, 49, 49],  // "31234567891011"
      [52, 49, 50, 51, 52, 53, 54, 55, 56],  // "412345678"
      [53, 49, 50, 51, 52, 53, 54, 55, 56, 57, 49, 48, 49, 49],  // "51234567891011"
      [54, 49, 50, 51, 52, 53, 54, 55, 56, 57],  // "6123456789"
      [55, 49, 50, 51, 52, 53, 54, 55, 56],  // "712345678"
      [56, 49, 50, 51, 52, 53, 54, 55, 56, 57],  // "8123456789"
      [57, 49, 50, 51, 52, 53, 54, 55, 56, 57, 49, 48, 49, 49],  // "91234567891011"
      [49, 48, 49, 50, 51, 52, 53, 54, 55, 56],  // "1012345678"
      [49, 49, 49, 50, 51, 52, 53, 54, 55, 56, 57, 49, 48, 49, 49],  // "111234567891011"
      [49, 50, 49, 50, 51, 52, 53, 54, 55, 56, 57]  // "12123456789"
    ]
  }

  /** testdata/dummy_coupons. */
  function CouponFile(): seq<Byte> {
    JoinLines(Coupons())
  }

  /** Where line `k` starts in JoinLines(lines): after each line before
      it and its newline. */
  function LineStart(lines: seq<Line>, k: nat): nat
    requires k <= |lines|
    decreases k
  {
    if k == 0 then 0 else LineStart(lines, k - 1) + |lines[k - 1]| + 1
  }

  /** Dropping the first line moves every later line start back by that
      line and its newline. */
  lemma {:induction false} LineStartFront(lines: seq<Line>, k: nat)
    requires 0 < k <= |lines|
    ensures LineStart(lines, k) == |lines[0]| + 1 + LineStart(lines[1..], k - 1)
    decreases k
  {
    if k > 1 {
      LineStartFront(lines, k - 1);
      assert lines[1..][k - 2] == lines[k - 1];
    }
  }

  /** The joined lines end one byte before the start a line after the last
      one would have. */
  lemma {:induction false} JoinLinesLength(lines: seq<Line>)
    requires |lines| > 0
    ensures |JoinLines(lines)| + 1 == LineStart(lines, |lines|)
    decreases |lines|
  {
    LineStartFront(lines, |lines|);
    if |lines| > 1 {
      JoinLinesLength(lines[1..]);
    }
  }

  /** A probe that meets a newline at `e` before any other stops just
      after it. */
  lemma {:induction false} ProbeEndAt(f: seq<Byte>, p: nat, e: nat)
    requires p <= e < |f| && f[e] == NewLine
    requires forall j :: p <= j < e ==> f[j] != NewLine
    ensures ProbeEnd(f, p) == e + 1
    decreases e - p
  {
    if p < e {
      ProbeEndAt(f, p + 1, e);
    }
  }

  /** A probe past the end of a prefix is a probe of the rest, shifted. */
  lemma {:induction false} ProbeEndShift(a: seq<Byte>, b: seq<Byte>, p: nat)
    requires |a| <= p
    ensures ProbeEnd(a + b, p) == |a| + ProbeEnd(b, p - |a|)
    decreases |a| + |b| - p
  {
    if p < |a + b| {
      assert (a + b)[p] == b[p - |a|];
      if (a + b)[p] != NewLine {
        ProbeEndShift(a, b, p + 1);
      }
    }
  }

  /** A probe that starts inside a line that has a line after it stops at
      the start of the next line. */
  lemma {:induction false} ProbeEndInLine(lines: seq<Line>, k: nat, p: nat)
    requires k + 1 < |lines| && NewLine !in lines[k]
    requires LineStart(lines, k) <= p <= LineStart(lines, k) + |lines[k]|
    ensures ProbeEnd(JoinLines(lines), p) == LineStart(lines, k + 1)
    decreases k
  {
    var head := lines[0] + [NewLine];
    var rest := JoinLines(lines[1..]);
    assert JoinLines(lines) == head + rest;
    LineStartFront(lines, k + 1);
    if k == 0 {
      forall j | p <= j < |lines[0]|
        ensures (head + rest)[j] != NewLine
      {
        assert (head + rest)[j] == lines[0][j];
      }
      ProbeEndAt(head + rest, p, |lines[0]|);
    } else {
      LineStartFront(lines, k);
      assert lines[1..][k - 1] == lines[k];
      ProbeEndShift(head, rest, p);
      ProbeEndInLine(lines[1..], k - 1, p - |head|);
    }
  }

  /** No coupon holds a newline or ends with a carriage return. */
  lemma CouponsArePlain()
    ensures forall i :: 0 <= i < |Coupons()| ==> PlainLine(Coupons()[i])
  {
  }

  /** Where the coupons start in the test file. */
  lemma CouponLineStarts()
    ensures LineStart(Coupons(), 3) == 36 && LineStart(Coupons(), 4) == 46
    ensures LineStart(Coupons(), 7) == 82 && LineStart(Coupons(), 8) == 93
    ensures LineStart(Coupons(), 10) == 119 && LineStart(Coupons(), 11) == 135
    ensures LineStart(Coupons(), 12) == 147
  {
    var lines := Coupons();
    assert LineStart(lines, 1) == 10;
    assert LineStart(lines, 2) == 21;
    assert LineStart(lines, 3) == 36;
    assert LineStart(lines, 4) == 46;
    assert LineStart(lines, 5) == 61;
    assert LineStart(lines, 6) == 72;
    assert LineStart(lines, 7) == 82;
    assert LineStart(lines, 8) == 93;
    assert LineStart(lines, 9) == 108;
    assert LineStart(lines, 10) == 119;
    assert LineStart(lines, 11) == 135;
  }

  /** The test file is 146 bytes long. */
  lemma CouponFileSize()
    ensures |CouponFile()| == 146
  {
    CouponLineStarts();
    JoinLinesLength(Coupons());
  }

  /** Probes from the three cut points the planner tries on the test file
      stop at the start of the next coupon. */
  lemma CouponProbes()
    ensures ProbeEnd(CouponFile(), 36) == 46
    ensures ProbeEnd(CouponFile(), 82) == 93
    ensures ProbeEnd(CouponFile(), 129) == 135
  {
    CouponLineStarts();
    CouponsArePlain();
    ProbesOfTwelve(Coupons());
  }

  /** The three probes of CouponProbes, for any twelve lines that start
      where the coupons do. */
  lemma ProbesOfTwelve(lines: seq<Line>)
    requires |lines| == 12
    requires NewLine !in lines[3] && NewLine !in lines[7] && NewLine !in lines[10]
    requires LineStart(lines, 3) == 36 && LineStart(lines, 4) == 46
    requires LineStart(lines, 7) == 82 && LineStart(lines, 8) == 93
    requires LineStart(lines, 10) == 119 && LineStart(lines, 11) == 135
    ensures ProbeEnd(JoinLines(lines), 36) == 46
    ensures ProbeEnd(JoinLines(lines), 82) == 93
    ensures ProbeEnd(JoinLines(lines), 129) == 135
  {
    ProbeEndInLine(lines, 3, 36);
    ProbeEndInLine(lines, 7, 82);
    ProbeEndInLine(lines, 10, 129);
  }

  /** Four chunks of a 146-byte file whose probes from 36, 82 and 129 stop
      at 46, 93 and 135 are cut there. */
  lemma PlanOfFour(f: seq<Byte>)
    requires |f| == 146
    requires ProbeEnd(f, 36) == 46 && ProbeEnd(f, 82) == 93 && ProbeEnd(f, 129) == 135
    ensures Plan(f, 4) == [Chunk(0, 46), Chunk(46, 93), Chunk(93, 135), Chunk(135, 146)]
  {
    var chunks := Plan(f, 4);
    ChunkSizeIsQuotient(146, 4);
    PlanContiguous(f, 4);
    PlanCuts(f, 4, 0);
    PlanCuts(f, 4, 1);
    PlanCuts(f, 4, 2);
    assert chunks[0] == Chunk(0, 46);
    assert chunks[1] == Chunk(46, 93);
    assert chunks[2] == Chunk(93, 135);
    assert chunks[3] == Chunk(135, 146);
  }

  /** SplitFileToNchunks of the test file into 4 chunks gives
      [0,46) [46,93) [93,135) [135,146). */
  lemma FixturePlan()
    ensures Plan(CouponFile(), 4) == [Chunk(0, 46), Chunk(46, 93), Chunk(93, 135), Chunk(135, 146)]
  {
    CouponFileSize();
    CouponProbes();
    PlanOfFour(CouponFile());
  }

  /** Scanning the test file gives back exactly its coupons. */
  lemma FixtureLines()
    ensures ScanLines(CouponFile()) == Coupons()
  {
    CouponsArePlain();
    ScanJoinedLines(Coupons());
  }

  /** ReadFile with 4 readers and no stop pushes every coupon of the test
      file. */
  lemma FixtureReadFile()
    ensures forall i :: 0 <= i < |Coupons()| ==>
              Coupons()[i] in Emissions(CouponFile(), Plan(CouponFile(), 4), NeverStopped(), 0)
  {
    FixtureLines();
    ReadFileDeliversEveryLine(CouponFile(), 4);
  }
}
