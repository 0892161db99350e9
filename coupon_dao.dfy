/** internal/db/coupon_dao.go: the coupon search over the configured files
    and the one-shot evaluation of its result.

    The busy-wait loop of Validate is a sequence of passes. Before each
    pass, the consumers of some files store true into their flags (the
    `arrived` part of a Round); after the pass comes the exit test, for which
    the completion watcher's signal is the `done` part of the Round. A
    schedule that ends before the loop exits leaves Validate still waiting. */
module CouponDao {
  import opened Common
  import opened Bufio
  import opened CouponValidate

  /** searchForCoupon is always called with 10 readers and 10 consumers. */
  const ThreadsPerFile := 10

  /** The number of flags that are set. */
  function CountTrue(flags: seq<bool>): (c: nat)
    ensures c <= |flags|
    decreases |flags|
  {
    if flags == [] then 0
    else CountTrue(flags[..|flags| - 1]) + (if flags[|flags| - 1] then 1 else 0)
  }

  /** No flag set is a count of zero, and every flag set a count of all. */
  lemma {:induction false} CountTrueExtremes(flags: seq<bool>)
    ensures CountTrue(flags) == 0 <==> forall i :: 0 <= i < |flags| ==> !flags[i]
    ensures CountTrue(flags) == |flags| <==> forall i :: 0 <= i < |flags| ==> flags[i]
    decreases |flags|
  {
    if flags != [] {
      var init := flags[..|flags| - 1];
      CountTrueExtremes(init);
      assert forall i :: 0 <= i < |init| ==> init[i] == flags[i];
    }
  }

  function AllFalse(n: nat): seq<bool> {
    seq(n, _ => false)
  }

  /** The flags after the consumers of the files marked in `arrived` stored
      true into theirs; a store only ever sets a flag. Files beyond the end
      of `arrived` store nothing. */
  function Merge(flags: seq<bool>, arrived: seq<bool>): seq<bool> {
    seq(|flags|, i requires 0 <= i < |flags| => flags[i] || (i < |arrived| && arrived[i]))
  }

  /** What happens before one pass of the loop in Validate: the files whose
      consumers store true into their flags, and whether the completion
      watcher's signal is seen set at the exit test after the pass. */
  datatype Round = Round(arrived: seq<bool>, done: bool)

  /** Where the loop of Validate stands after the rounds of a schedule:
      exited with the final counter and the rounds it never reached, or
      still looping with the counter so far. */
  datatype Progress = Exited(counter: int, unused: seq<Round>) | Looping(counter: int)

  /** The passes of Validate's loop from flags `flags` and counter
      `counter`: each pass counts and clears the set flags, and the loop
      exits after the first pass at which the counter equals `couponMin` or
      the done signal is set. */
  function Passes(flags: seq<bool>, counter: int, couponMin: int, rounds: seq<Round>): (p: Progress)
    ensures p.counter >= counter
    ensures p.Exited? ==> |p.unused| < |rounds|
    ensures p.Looping? ==> forall j :: 0 <= j < |rounds| ==> !rounds[j].done
    decreases |rounds|
  {
    if rounds == [] then Looping(counter)
    else
      var seen := Merge(flags, rounds[0].arrived);
      var c := counter + CountTrue(seen);
      if c == couponMin || rounds[0].done then Exited(c, rounds[1..])
      else Passes(AllFalse(|flags|), c, couponMin, rounds[1..])
  }

  /** The first pass of Passes, counting `found` flags: the exit test
      decides between stopping there and going on with every flag clear. */
  lemma PassesStep(flags: seq<bool>, counter: int, found: nat, couponMin: int, rounds: seq<Round>)
    requires rounds != [] && found == CountTrue(Merge(flags, rounds[0].arrived))
    ensures counter + found == couponMin || rounds[0].done ==>
              Passes(flags, counter, couponMin, rounds) == Exited(counter + found, rounds[1..])
    ensures !(counter + found == couponMin || rounds[0].done) ==>
              Passes(flags, counter, couponMin, rounds)
              == Passes(AllFalse(|flags|), counter + found, couponMin, rounds[1..])
  {
  }

  /** The flags stored over a whole schedule, file by file. */
  function Stored(n: nat, rounds: seq<Round>): (found: seq<bool>)
    ensures |found| == n
    decreases |rounds|
  {
    if rounds == [] then AllFalse(n) else Merge(Stored(n, rounds[1..]), rounds[0].arrived)
  }

  /** The number of stores over a schedule, counting a file again each time
      its flag is stored into after it was cleared. */
  function Tally(n: nat, rounds: seq<Round>): nat
    decreases |rounds|
  {
    if rounds == [] then 0 else CountTrue(Merge(AllFalse(n), rounds[0].arrived)) + Tally(n, rounds[1..])
  }

  /** Every file's flag is stored into in at most one round. */
  predicate StoredOnce(rounds: seq<Round>) {
    forall j, k, i :: 0 <= j < k < |rounds| && 0 <= i < |rounds[j].arrived| && i < |rounds[k].arrived| ==>
      !(rounds[j].arrived[i] && rounds[k].arrived[i])
  }

  /** Once the done signal is seen, no consumer stores any more: the signal
      comes only after every consumer has finished. */
  predicate DoneIsFinal(n: nat, rounds: seq<Round>)
    decreases |rounds|
  {
    rounds == [] || ((rounds[0].done ==> Tally(n, rounds[1..]) == 0) && DoneIsFinal(n, rounds[1..]))
  }

  /** Taking the first `k` merged flags is merging the first `k` flags. */
  lemma MergePrefix(flags: seq<bool>, arrived: seq<bool>, k: nat)
    requires k <= |flags|
    ensures Merge(flags, arrived)[..k] == Merge(flags[..k], arrived)
  {
  }

  /** Storing into flags that are all clear, for files that are not set
      already, adds exactly those files to the count. */
  lemma {:induction false} CountMergeDisjoint(flags: seq<bool>, arrived: seq<bool>)
    requires forall i :: 0 <= i < |flags| && i < |arrived| ==> !(flags[i] && arrived[i])
    ensures CountTrue(Merge(flags, arrived)) == CountTrue(flags) + CountTrue(Merge(AllFalse(|flags|), arrived))
    decreases |flags|
  {
    if flags != [] {
      var k := |flags| - 1;
      MergePrefix(flags, arrived, k);
      MergePrefix(AllFalse(|flags|), arrived, k);
      assert AllFalse(|flags|)[..k] == AllFalse(k);
      CountMergeDisjoint(flags[..k], arrived);
    }
  }

  /** A file whose flag is stored over a schedule is stored in some round. */
  lemma {:induction false} StoredInSomeRound(n: nat, rounds: seq<Round>, i: nat)
    requires i < n && Stored(n, rounds)[i]
    ensures exists k :: 0 <= k < |rounds| && i < |rounds[k].arrived| && rounds[k].arrived[i]
    decreases |rounds|
  {
    if !(i < |rounds[0].arrived| && rounds[0].arrived[i]) {
      StoredInSomeRound(n, rounds[1..], i);
      var k :| 0 <= k < |rounds[1..]| && i < |rounds[1..][k].arrived| && rounds[1..][k].arrived[i];
      assert rounds[k + 1] == rounds[1..][k];
    }
  }

  /** When no file is stored twice, the stores over a schedule count the
      files that are stored. */
  lemma {:induction false} TallyCountsStoredFiles(n: nat, rounds: seq<Round>)
    requires StoredOnce(rounds)
    ensures Tally(n, rounds) == CountTrue(Stored(n, rounds))
    decreases |rounds|
  {
    if rounds == [] {
      CountTrueExtremes(AllFalse(n));
    } else {
      var rest := rounds[1..];
      assert StoredOnce(rest) by {
        forall j, k, i | 0 <= j < k < |rest| && 0 <= i < |rest[j].arrived| && i < |rest[k].arrived|
          ensures !(rest[j].arrived[i] && rest[k].arrived[i])
        {
          assert rest[j] == rounds[j + 1] && rest[k] == rounds[k + 1];
        }
      }
      TallyCountsStoredFiles(n, rest);
      var later := Stored(n, rest);
      forall i | 0 <= i < |later| && i < |rounds[0].arrived|
        ensures !(later[i] && rounds[0].arrived[i])
      {
        if later[i] {
          StoredInSomeRound(n, rest, i);
          var k :| 0 <= k < |rest| && i < |rest[k].arrived| && rest[k].arrived[i];
          assert rest[k] == rounds[k + 1];
        }
      }
      CountMergeDisjoint(later, rounds[0].arrived);
    }
  }

  /** From flags that are all clear, the loop's counter grows by the stores
      of the rounds it goes through. It exits only when the counter equals
      `couponMin` or, when the done signal comes only after the last store,
      with every store counted. */
  lemma {:induction false} PassesFromClear(n: nat, counter: int, couponMin: int, rounds: seq<Round>)
    ensures Passes(AllFalse(n), counter, couponMin, rounds).Looping? ==>
              Passes(AllFalse(n), counter, couponMin, rounds).counter == counter + Tally(n, rounds)
    ensures Passes(AllFalse(n), counter, couponMin, rounds).Exited? ==>
              var p := Passes(AllFalse(n), counter, couponMin, rounds);
              && p.counter + Tally(n, p.unused) == counter + Tally(n, rounds)
              && (p.counter == couponMin || (DoneIsFinal(n, rounds) ==> Tally(n, p.unused) == 0))
    decreases |rounds|
  {
    if rounds != [] {
      var c := counter + CountTrue(Merge(AllFalse(n), rounds[0].arrived));
      if !(c == couponMin || rounds[0].done) {
        PassesFromClear(n, c, couponMin, rounds[1..]);
      }
    }
  }

  /** The verdict of a search whose flags start clear: when no file's flag
      is stored twice and the done signal comes only after the last store,
      the loop, once it exits, answers whether at least `couponMin` files
      had their flags stored. */
  lemma VerdictCountsFiles(n: nat, couponMin: int, rounds: seq<Round>)
    requires StoredOnce(rounds) && DoneIsFinal(n, rounds)
    requires Passes(AllFalse(n), 0, couponMin, rounds).Exited?
    ensures (Passes(AllFalse(n), 0, couponMin, rounds).counter >= couponMin)
         == (CountTrue(Stored(n, rounds)) >= couponMin)
  {
    PassesFromClear(n, 0, couponMin, rounds);
    TallyCountsStoredFiles(n, rounds);
  }

  /** The exit test is an equality: one pass that takes the counter from
      below `couponMin` to above it does not end the loop. */
  lemma OvershootKeepsWaiting()
    ensures Passes(AllFalse(2), 0, 1, [Round([true, true], false)]) == Looping(2)
    ensures Passes(AllFalse(2), 0, 1, [Round([true, true], false), Round([], true)]) == Exited(2, [])
  {
    assert Merge(AllFalse(2), [true, true]) == [true, true];
    assert [true, true][..1] == [true];
    assert Merge(AllFalse(2), []) == AllFalse(2) == [false, false];
    assert [false, false][..1] == [false];
  }

  /** A file whose flag is stored again after a pass cleared it is counted
      twice: with one matching file out of one, a threshold of two is met. */
  lemma DoubleCreditExample()
    ensures Passes(AllFalse(1), 0, 2, [Round([true], false), Round([true], false)]) == Exited(2, [])
    ensures CountTrue(Stored(1, [Round([true], false), Round([true], false)])) == 1
  {
  }

  /** The completion watcher sets the done signal as soon as the first
      file's processors have finished, while a later file is still being
      searched. With two files, only the second matching and a threshold of
      one, a pass that sees that signal before the second file's store ends
      the loop with counter 0, and Validate answers false. */
  lemma EarlyStopExample()
    ensures Passes(AllFalse(2), 0, 1, [Round([false, false], true), Round([false, true], false)])
         == Exited(0, [Round([false, true], false)])
    ensures CountTrue(Stored(2, [Round([false, false], true), Round([false, true], false)])) == 1
    ensures !DoneIsFinal(2, [Round([false, false], true), Round([false, true], false)])
  {
    assert Merge(AllFalse(2), [false, false]) == [false, false];
    assert [false, false][..1] == [false];
  }

  /** What Validate hands back: its return values, or, when the schedule
      ends before the loop exits, that it is still waiting. */
  datatype Validation = Answered(answer: Result<bool>) | StillWaiting

  /** SearchResultImpl: one flag per configured file, in file order, the
      stop channel (as the values sent on it), the threshold and the
      one-shot guard. The completion handles are the `done` parts of the
      schedule handed to Validate. */
  class SearchResult {
    const resultSet: array<bool>
    var stopAllchecks: seq<bool>
    const couponMin: int
    var retrieved: bool

    /** The result object SearchForCouponInGivenFiles builds for `n` files:
        no flag stored yet, nothing sent, not retrieved. */
    constructor (n: nat, couponMin: int)
      ensures fresh(resultSet) && resultSet.Length == n && resultSet[..] == AllFalse(n)
      ensures this.couponMin == couponMin && stopAllchecks == [] && !retrieved
    {
      resultSet := new bool[n](i => false);
      this.couponMin := couponMin;
      stopAllchecks := [];
      retrieved := false;
    }

    /** The consumers of the files marked in `arrived` store true into
        their flags. */
    method Store(arrived: seq<bool>)
      modifies resultSet
      ensures resultSet[..] == Merge(old(resultSet[..]), arrived)
    {
      forall i | 0 <= i < resultSet.Length && i < |arrived| && arrived[i] {
        resultSet[i] := true;
      }
    }

    /** One pass of Validate's loop: count the flags that are set and
        clear each of them. */
    method CountAndClear() returns (found: nat)
      modifies resultSet
      ensures found == CountTrue(old(resultSet[..]))
      ensures resultSet[..] == AllFalse(resultSet.Length)
    {
      ghost var flags := resultSet[..];
      found := 0;
      for i := 0 to resultSet.Length
        invariant found == CountTrue(flags[..i])
        invariant forall j :: 0 <= j < i ==> !resultSet[j]
        invariant forall j :: i <= j < resultSet.Length ==> resultSet[j] == flags[j]
      {
        assert flags[..i + 1][..i] == flags[..i];
        if resultSet[i] {
          found := found + 1;
          resultSet[i] := false;
        }
      }
      assert flags[..resultSet.Length] == flags;
    }

    /** One pass with the stores that arrive before it: the flags counted
        are the old ones with the arrivals merged in, and all are cleared. */
    method Pass(arrived: seq<bool>) returns (found: nat)
      modifies resultSet
      ensures found == CountTrue(Merge(old(resultSet[..]), arrived))
      ensures resultSet[..] == AllFalse(resultSet.Length)
    {
      Store(arrived);
      found := CountAndClear();
    }

    /** The busy-wait loop of Validate, pass by pass: the stores that
        arrive before a pass, the count-and-clear, then the exit test on
        the counter and the done signal. */
    method RunPasses(schedule: seq<Round>) returns (p: Progress)
      modifies resultSet
      ensures p == Passes(old(resultSet[..]), 0, couponMin, schedule)
      ensures resultSet[..] == if schedule == [] then old(resultSet[..]) else AllFalse(resultSet.Length)
    {
      ghost var target := Passes(old(resultSet[..]), 0, couponMin, schedule);
      ghost var n := resultSet.Length;
      ghost var flags := resultSet[..];
      var counter := 0;
      var rest := schedule;
      while rest != []
        invariant |flags| == n && resultSet[..] == flags
        invariant flags == if rest == schedule then old(resultSet[..]) else AllFalse(n)
        invariant Passes(flags, counter, couponMin, rest) == target
        decreases |rest|
      {
        var round := rest[0];
        var found := Pass(round.arrived);
        PassesStep(flags, counter, found, couponMin, rest);
        counter := counter + found;
        if counter == couponMin || round.done {
          return Exited(counter, rest[1..]);
        }
        flags := AllFalse(n);
        rest := rest[1..];
      }
      return Looping(counter);
    }

    /** Validate, with the consumers' stores and the completion signal
        given by `schedule`. A second call is an error and changes nothing;
        the first sets the guard before counting, and on exit sends one
        `true` on the stop channel and answers `counter >= couponMin`. */
    method Validate(schedule: seq<Round>) returns (v: Validation)
      modifies this, resultSet
      ensures old(retrieved) ==>
                && v == Answered(Err(AlreadyRetrieved))
                && stopAllchecks == old(stopAllchecks) && retrieved
                && resultSet[..] == old(resultSet[..])
      ensures !old(retrieved) ==> retrieved
      ensures !old(retrieved) ==>
                match Passes(old(resultSet[..]), 0, couponMin, schedule)
                case Exited(c, _) =>
                  v == Answered(Ok(c >= couponMin)) && stopAllchecks == old(stopAllchecks) + [true]
                case Looping(_) =>
                  v == StillWaiting && stopAllchecks == old(stopAllchecks)
      ensures !old(retrieved) ==>
                resultSet[..] == if schedule == [] then old(resultSet[..]) else AllFalse(resultSet.Length)
    {
      if retrieved {
        return Answered(Err(AlreadyRetrieved));
      }
      retrieved := true;
      var p := RunPasses(schedule);
      match p {
        case Exited(counter, _) =>
          stopAllchecks := stopAllchecks + [true];
          return Answered(Ok(counter >= couponMin));
        case Looping(_) =>
          return StillWaiting;
      }
    }
  }

  /** Whether the consumers of a file searched with `numberOfThreads`
      readers and consumers store true into its flag: some line the readers
      push is the coupon. */
  function FileMatches(file: seq<Byte>, numberOfThreads: int, coupon: Line, stop: StopSignal): bool
    requires numberOfThreads > 0
  {
    coupon in Emissions(file, Plan(file, numberOfThreads), stop, 0)
  }

  /** With the stop signal never raised, a file's flag is stored exactly
      when one of its lines is the coupon. */
  lemma FileMatchesWhenNeverStopped(file: seq<Byte>, coupon: Line)
    ensures FileMatches(file, ThreadsPerFile, coupon, NeverStopped()) <==> coupon in ScanLines(file)
  {
    ReadFileDeliversEveryLine(file, ThreadsPerFile);
  }

  /** searchForCoupon: read the file with `numberOfThreads` readers and
      scan the pushed lines for the coupon. The result is the value the
      file's flag ends with once every consumer has finished; a setup
      error is returned before any consumer starts. A thread count that is
      not positive makes Go's `make` of the line queue panic (or, for zero,
      the division in SplitFileToNchunks), so it is excluded. */
  method SearchForCoupon(fs: FileSystem, filePath: string, numberOfThreads: int, coupon: Line, stop: StopSignal)
    returns (r: Result<bool>)
    requires numberOfThreads > 0
    ensures filePath !in fs ==> r == Err(OpenFailed(filePath))
    ensures filePath in fs ==> r == Ok(FileMatches(fs[filePath], numberOfThreads, coupon, stop))
  {
    var lines := ReadFile(fs, filePath, numberOfThreads, stop);
    if lines.Err? {
      return Err(lines.error);
    }
    var flag, _ := ScanForCoupon(numberOfThreads, lines.value, coupon);
    return Ok(flag);
  }

  /** couponDaoImpl: the configured coupon files and the threshold. */
  datatype CouponDaoImpl = CouponDaoImpl(files: seq<string>, couponMin: int)

  /** The first configured file that cannot be opened, if any. */
  function FirstMissing(fs: FileSystem, files: seq<string>): (k: Option<nat>)
    ensures k.Some? ==> k.value < |files| && files[k.value] !in fs
    ensures k.Some? ==> forall j :: 0 <= j < k.value ==> files[j] in fs
    ensures k.None? <==> forall j :: 0 <= j < |files| ==> files[j] in fs
    decreases |files|
  {
    if files == [] then None
    else if files[0] !in fs then Some(0)
    else match FirstMissing(fs, files[1..])
      case None => None
      case Some(k) => Some(k + 1)
  }

  /** What the consumers of each file store into its flag, file by file,
      when every file can be opened. */
  function Expected(fs: FileSystem, files: seq<string>, coupon: Line, stops: nat -> StopSignal): seq<bool>
    requires forall j :: 0 <= j < |files| ==> files[j] in fs
  {
    seq(|files|, k requires 0 <= k < |files| => FileMatches(fs[files[k]], ThreadsPerFile, coupon, stops(k)))
  }

  /** The loop of SearchForCouponInGivenFiles from file `i` on, with the
      flags `results` of the files before it: each file is searched with
      `ThreadsPerFile` readers and its own stop signal `stops(i)`, and the
      first file that cannot be opened ends the loop with its error. */
  function SearchLoop(fs: FileSystem, files: seq<string>, coupon: Line, stops: nat -> StopSignal,
                      i: nat, results: seq<bool>): Result<seq<bool>>
    requires i <= |files|
    decreases |files| - i
  {
    if i == |files| then Ok(results)
    else if files[i] !in fs then Err(OpenFailed(files[i]))
    else SearchLoop(fs, files, coupon, stops, i + 1,
                    results + [FileMatches(fs[files[i]], ThreadsPerFile, coupon, stops(i))])
  }

  /** The loop stops at the first file that cannot be opened. */
  lemma {:induction false} SearchLoopFails(fs: FileSystem, files: seq<string>, coupon: Line,
                                           stops: nat -> StopSignal, i: nat, results: seq<bool>)
    requires i <= |files|
    requires forall j :: 0 <= j < i ==> files[j] in fs
    requires FirstMissing(fs, files).Some?
    ensures SearchLoop(fs, files, coupon, stops, i, results) == Err(OpenFailed(files[FirstMissing(fs, files).value]))
    decreases |files| - i
  {
    if files[i] in fs {
      SearchLoopFails(fs, files, coupon, stops, i + 1,
                      results + [FileMatches(fs[files[i]], ThreadsPerFile, coupon, stops(i))]);
    }
  }

  /** When every file can be opened, the loop adds one flag per file, in
      file order. */
  lemma {:induction false} SearchLoopSucceeds(fs: FileSystem, files: seq<string>, coupon: Line,
                                              stops: nat -> StopSignal, i: nat)
    requires i <= |files| && forall j :: 0 <= j < |files| ==> files[j] in fs
    ensures SearchLoop(fs, files, coupon, stops, i, Expected(fs, files, coupon, stops)[..i])
         == Ok(Expected(fs, files, coupon, stops))
    decreases |files| - i
  {
    var expected := Expected(fs, files, coupon, stops);
    if i == |files| {
      assert expected[..i] == expected;
    } else {
      TakeSnoc(expected, i);
      SearchLoopSucceeds(fs, files, coupon, stops, i + 1);
    }
  }

  /** The loop of SearchForCouponInGivenFiles. */
  method SearchFiles(fs: FileSystem, files: seq<string>, coupon: Line, stops: nat -> StopSignal)
    returns (r: Result<seq<bool>>)
    ensures r == SearchLoop(fs, files, coupon, stops, 0, [])
  {
    var results: seq<bool> := [];
    var i := 0;
    while i < |files|
      invariant i <= |files|
      invariant SearchLoop(fs, files, coupon, stops, i, results) == SearchLoop(fs, files, coupon, stops, 0, [])
    {
      var flag := SearchForCoupon(fs, files[i], ThreadsPerFile, coupon, stops(i));
      if flag.Err? {
        return Err(flag.error);
      }
      results := results + [flag.value];
      i := i + 1;
    }
    return Ok(results);
  }

  /** SearchForCouponInGivenFiles: the first file that cannot be opened
      aborts the search with its error, and no result is built; otherwise
      the result has one clear flag per file, in file order, the configured
      threshold and the guard down. Go returns no such value: the ghost
      `matches[i]` witnesses what file `i`'s consumers go on to store into
      its flag, the stores a later Validate sees (`Stored` in SearchVerdict). */
  method SearchForCouponInGivenFiles(dao: CouponDaoImpl, fs: FileSystem, coupon: Line, stops: nat -> StopSignal)
    returns (r: Result<SearchResult>, ghost matches: seq<bool>)
    ensures FirstMissing(fs, dao.files).Some? ==>
              r == Err(OpenFailed(dao.files[FirstMissing(fs, dao.files).value]))
    ensures FirstMissing(fs, dao.files).None? ==>
              && r.Ok? && fresh(r.value) && fresh(r.value.resultSet)
              && r.value.resultSet[..] == AllFalse(|dao.files|)
              && r.value.couponMin == dao.couponMin
              && r.value.stopAllchecks == [] && !r.value.retrieved
              && matches == Expected(fs, dao.files, coupon, stops)
  {
    var searched := SearchFiles(fs, dao.files, coupon, stops);
    if FirstMissing(fs, dao.files).Some? {
      SearchLoopFails(fs, dao.files, coupon, stops, 0, []);
    } else {
      SearchLoopSucceeds(fs, dao.files, coupon, stops, 0);
    }
    if searched.Err? {
      return Err(searched.error), [];
    }
    var result := new SearchResult(|dao.files|, dao.couponMin);
    return Ok(result), searched.value;
  }

  /** For each configured file, whether one of its lines is the coupon. */
  function FilesWithCoupon(fs: FileSystem, files: seq<string>, coupon: Line): (found: seq<bool>)
    requires forall i :: 0 <= i < |files| ==> files[i] in fs
    ensures |found| == |files|
    ensures forall i :: 0 <= i < |files| ==> found[i] == (coupon in ScanLines(fs[files[i]]))
  {
    seq(|files|, i requires 0 <= i < |files| => coupon in ScanLines(fs[files[i]]))
  }

  /** The whole search, when nobody stops the readers, every file's flag is
      stored in one round and the done signal comes after the last store:
      the verdict of the first Validate on a fresh result is whether at
      least `couponMin` of the configured files contain the coupon line. */
  lemma SearchVerdict(fs: FileSystem, files: seq<string>, couponMin: int, coupon: Line, rounds: seq<Round>)
    requires forall i :: 0 <= i < |files| ==> files[i] in fs
    requires |Stored(|files|, rounds)| == |files|
    requires forall i :: 0 <= i < |files| ==>
               Stored(|files|, rounds)[i] == FileMatches(fs[files[i]], ThreadsPerFile, coupon, NeverStopped())
    requires StoredOnce(rounds) && DoneIsFinal(|files|, rounds)
    requires Passes(AllFalse(|files|), 0, couponMin, rounds).Exited?
    ensures (Passes(AllFalse(|files|), 0, couponMin, rounds).counter >= couponMin)
         == (CountTrue(FilesWithCoupon(fs, files, coupon)) >= couponMin)
  {
    VerdictCountsFiles(|files|, couponMin, rounds);
    forall i | 0 <= i < |files|
      ensures Stored(|files|, rounds)[i] == FilesWithCoupon(fs, files, coupon)[i]
    {
      FileMatchesWhenNeverStopped(fs[files[i]], coupon);
    }
    assert Stored(|files|, rounds) == FilesWithCoupon(fs, files, coupon);
  }
}
