# Coupon search and order placement, modelled in Dafny

This project models the core of a food-ordering backend written in Go: the
search for a coupon code in a set of coupon files, and the decision
procedure of `PlaceOrder` that uses it.

- **Line-aligned chunk planner and line production**
  (`internal/utils/coupon_validate.go`, module `CouponValidate`).
  `SplitFileToNchunks` cuts a file into `n` byte ranges. Each inner cut is
  probed forward from `start + size/n` to just past the next `'\n'`. The
  last range ends at the end of the file. `ReadFileChunk` reads one range
  and pushes its lines, checking the stop flag before each one. `ReadFile`
  plans the ranges and runs one reader per range. `ScanForCoupon` compares
  the pushed lines with the coupon and sets a flag on a match.
- **Go's `bufio.Scanner` with `bufio.ScanLines`**, as the readers use it
  (module `Bufio`).
  - A line ends at `'\n'`.
  - One `'\r'` before the `'\n'` is dropped.
  - A last segment with no newline is a line only when it is not empty.
- **Result aggregator** (`internal/db/coupon_dao.go`, module `CouponDao`).
  - `SearchResultImpl` becomes the class `SearchResult`. It has the
    one-shot `retrieved` guard, an `array<bool>` of per-file flags and the
    stop channel, modelled as the values sent on it.
  - `Validate` is a guard, then repeated count-and-clear passes, then the
    verdict `counter >= couponMin`.
  - `SearchForCouponInGivenFiles` searches the configured files in order.
    It aborts on the first file that cannot be opened, and otherwise builds
    a fresh result.
- **Order placement** (`internal/services/api_order_service.go`, module
  `OrderService`). `PlaceOrder` makes its checks in a fixed order:
  1. the coupon length, counted in UTF-8 bytes as Go's `len` does;
  2. the coupon search set-up;
  3. each item's quantity and product lookup;
  4. the coupon verdict;
  5. the order insert.

  Then it builds the response. The DAOs and the search result are oracles:
  a `Backend` value says what each one answers. The model also returns the
  calls `PlaceOrder` makes on them, in order.
- **Regression fixture** (`internal/utils/coupon_validate_test.go`, module
  `CouponFixture`). This is the twelve-coupon test file, split into four
  chunks, and read back line by line.

The file `testdata/dummy_coupons` is not part of this model. Its contents
are rebuilt from the twelve coupons the test expects, joined by `'\n'` with
no newline after the last one. That gives 146 bytes, the size the test's
last chunk ends at.

Concurrency is abstracted:

- The readers of one file run one after another, in chunk order.
- What they push onto the channel is a sequence.
- The shared stop flag is an input: it says, for each check a reader makes,
  whether the reader saw the flag set.
- Validate's busy-wait loop is a schedule of rounds. Each round holds the
  flag stores that land before a pass and whether the completion signal is
  seen at the exit test after it.

The file system is a map from path to bytes. A missing path is a file that
`os.Open` fails on. The random order id from `uuid.New()` is an input.

Behaviours of the Go code that the model keeps:

- The `go` statement in `ReadFile` (coupon_validate.go:24) drops a reader's
  read error. A reader whose chunk runs past the end of the file pushes
  nothing, and the file's search goes on (`CouponValidate.ReaderPushes`).
- The loop in `Validate` exits when `counter == couponMin` or the done
  signal is set. A pass that takes the counter past the threshold keeps the
  loop waiting (`CouponDao.OvershootKeepsWaiting`).
- Whatever ends the loop, the verdict is `counter >= couponMin`.
- A flag stored again after a pass cleared it is counted again
  (`CouponDao.DoubleCreditExample`).
- The completion watcher sets the done signal once the first file's
  processors have finished (coupon_dao.go:40-43). A pass that sees it before
  a later file's store ends the loop without that store
  (`CouponDao.EarlyStopExample`).
- `SearchForCouponInGivenFiles` returns on the first file whose set-up
  fails. The later files are not searched; searches already started for the
  earlier files are abandoned.

## Model

| member | source | states |
|---|---|---|
| Common.NextNewLine | internal/utils/coupon_validate.go:41-46 | the offset found lies between the start and the end of the data, and is a `'\n'` unless it is the end |
| Common.NextNewLineAppend | internal/utils/coupon_validate.go:41-48 | appending bytes keeps a newline already found in the prefix, and a search that ran off the prefix continues into the appended bytes |
| Bufio.DropCR | internal/utils/coupon_validate.go:41-46 | bufio's `dropCR`, applied by `bufio.ScanLines` to every token: a last `'\r'` is removed and nothing else (its contract is DropCRRemoves) |
| Bufio.DropCRRemoves | internal/utils/coupon_validate.go:41-46 | dropping the carriage return takes off exactly one trailing `'\r'` when there is one (putting it back gives the input), and otherwise leaves the bytes unchanged |
| Bufio.ScanFrom | internal/utils/coupon_validate.go:41-46 | the tokens the `scanner.Scan()` loop yields from an offset: the bytes up to the next `'\n'` less a last `'\r'`, then the tokens after that newline; a last segment with no newline is a token only when it is not empty (properties in NextTokenScans, ScanFromShift, ScanFromAppend) |
| Bufio.ScanLines | internal/utils/coupon_validate.go:41-46 | the lines a scanner over the whole buffer yields, in order (properties in ScanLinesAppend, ScanJoinedLines, CouponValidate.ScanLinesHaveNoNewLine) |
| Bufio.NextToken | internal/utils/coupon_validate.go:42-46 | one `scanner.Scan()` always moves strictly forward and never past the end of the buffer |
| Bufio.NextTokenScans | internal/utils/coupon_validate.go:42-46 | the scan from an offset is the token NextToken returns followed by the scan from where that token ends |
| Bufio.ScanFromShift | internal/utils/coupon_validate.go:41-48 | bytes in front of a buffer do not change how the bytes after them are split into lines |
| Bufio.ScanFromAppend | internal/utils/coupon_validate.go:41-48 | scanning on across a cut placed just after a newline gives the tokens before the cut, then the tokens of the bytes after it |
| Bufio.ScanLinesAppend | internal/utils/coupon_validate.go:76-90 | when a buffer is cut just after a newline, scanning the two halves apart gives the same lines, in the same order, as scanning the whole: no line straddles a cut |
| Bufio.ScanJoinedLines | internal/utils/coupon_validate_test.go:60-71 | lines with no newline and no trailing `'\r'`, joined by `'\n'` with a non-empty last line, scan back to exactly those lines |
| CouponValidate.ProbeEnd | internal/utils/coupon_validate.go:73-87 | the probe ends no later than the end of the file and no earlier than where it starts |
| CouponValidate.ProbeEndStops | internal/utils/coupon_validate.go:76-87 | the probe stops just after the first `'\n'` at or after its start, or at the end of the file when no newline follows |
| CouponValidate.ProbeEndIsNextNewLine | internal/utils/coupon_validate.go:76-87 | the probe stops one byte past the `'\n'` where the scanner ends its token, or at the end of the file when no newline follows: the cuts and the scanner agree on where lines end |
| CouponValidate.ChunkSizeIsQuotient | internal/utils/coupon_validate.go:65 | the naive chunk size is the quotient of the file size by `n` |
| CouponValidate.PlanLoop | internal/utils/coupon_validate.go:68-91 | the outer loop as written, carrying the chunks appended so far: it ends with `n` chunks, keeps every chunk already appended, puts the current start first among the new ones and ends the last at the file size |
| CouponValidate.PlanFrom | internal/utils/coupon_validate.go:68-91 | the iterations from `i` on append `n - i` chunks; the first starts at the current start, the last ends at the file size, and each lies inside the file |
| CouponValidate.Plan | internal/utils/coupon_validate.go:64-93 | a positive `n` gives exactly `n` chunks, the first starting at 0 and the last ending at the file size, each inside the file; a negative `n` gives no chunk |
| CouponValidate.PlanContiguous | internal/utils/coupon_validate.go:89-90 | each chunk starts where the one before it ends |
| CouponValidate.PlanCuts | internal/utils/coupon_validate.go:73-87 | every non-final chunk ends where the probe from its start plus `size/n` stops: just after the first newline at or past that point, or at the file size when there is none |
| CouponValidate.PlanReassembles | internal/utils/coupon_validate.go:66-91 | the chunks' bytes, read in order, give back the whole file: no byte missing or read twice |
| CouponValidate.Probe | internal/utils/coupon_validate.go:73-87 | the byte-at-a-time probe loop ends exactly where ProbeEnd says |
| CouponValidate.SplitFileToNchunks | internal/utils/coupon_validate.go:52-94 | a file that cannot be opened gives the open error; otherwise the result is the plan for that file and `n` |
| CouponValidate.FirstStop | internal/utils/coupon_validate.go:42-45 | the index found is the first check that sees the stop flag set, or the line count when none does |
| CouponValidate.Emitted | internal/utils/coupon_validate.go:42-48 | a reader pushes a prefix of its lines, in order; no check before a pushed line saw the flag, and a reader that stops early saw it at the next check |
| CouponValidate.EmittedAll | internal/utils/coupon_validate.go:43-44 | with the flag never set, every line is pushed |
| CouponValidate.PushLines | internal/utils/coupon_validate.go:41-48 | the scanner loop pushes exactly the lines of the buffer up to the first check that sees the stop flag |
| CouponValidate.ReadFileChunk | internal/utils/coupon_validate.go:29-50 | an unopenable file gives the open error, and a range past the end of the file gives the read error; an empty range pushes nothing; otherwise the reader pushes the emitted lines of `file[from..to)` |
| CouponValidate.ReaderPushes | internal/utils/coupon_validate.go:29-48 | what one `go ReadFileChunk` pushes: the emitted lines of its chunk, or nothing when the chunk does not lie inside the file and the read fails |
| CouponValidate.ReaderPushesPrefix | internal/utils/coupon_validate.go:36-48 | a reader pushes a prefix of its chunk's lines, and nothing when its chunk does not lie inside the file |
| CouponValidate.Emissions | internal/utils/coupon_validate.go:14-27 | the queue the readers of a chunk list fill, one reader's pushes after another in chunk order (tied to ScanLines of the file by ReadFileDeliversEveryLine) |
| CouponValidate.ReadFile | internal/utils/coupon_validate.go:14-27 | a planning error is returned before any reader runs; otherwise the queue holds what the readers of the planned chunks push, in chunk order |
| CouponValidate.RunReaders | internal/utils/coupon_validate.go:22-25 | the loop over the chunks: the queue is what the chunks' readers push, one reader after another in chunk order |
| CouponValidate.ScanAcrossCut | internal/utils/coupon_validate.go:76-90 | the lines from a chunk start are the lines up to the probe's cut followed by the lines from the cut on |
| CouponValidate.ReadFileDeliversEveryLine | internal/utils/coupon_validate_test.go:83-100 | with the stop flag never set, the readers of all chunks together push exactly the lines of the whole file, in file order, for every positive `n` |
| CouponValidate.ScanFromNoNewLine | internal/utils/coupon_validate.go:41-46 | no token of a scan from any offset holds a `'\n'` |
| CouponValidate.ScanLinesHaveNoNewLine | internal/utils/coupon_validate.go:41-47 | no line a reader can push holds a `'\n'`: the scanner splits at every newline |
| CouponValidate.ScanForCoupon | internal/utils/coupon_validate.go:96-113 | with at least one consumer, the flag is set exactly when the coupon is in the queue; the consumer stops at the first match and nothing resets the flag; with none, the flag stays false |
| CouponDao.CountTrue | internal/db/coupon_dao.go:46-51 | the number of set flags one pass adds to `counter`, never more than the number of files |
| CouponDao.Merge | internal/utils/coupon_validate.go:104-105 | the flags once the consumers' `flag.Store(true)` calls of a round have landed: a flag is set when it was set or its file's consumer stored |
| CouponDao.CountTrueExtremes | internal/db/coupon_dao.go:46-51 | the count of set flags is zero exactly when no flag is set, and full exactly when all are |
| CouponDao.Passes | internal/db/coupon_dao.go:45-56 | the busy-wait loop over a schedule of rounds: the counter never goes down, an exit leaves fewer rounds unused than there were, and a loop still running at the end of the schedule saw no done signal |
| CouponDao.PassesStep | internal/db/coupon_dao.go:45-56 | a pass exits exactly when the counter equals `couponMin` or the done signal is seen; otherwise the loop goes on with all flags clear |
| CouponDao.TallyCountsStoredFiles | internal/db/coupon_dao.go:46-51 | when no file's flag is stored twice, the stores counted over the passes are the number of files whose flag was stored |
| CouponDao.PassesFromClear | internal/db/coupon_dao.go:45-56 | the counter grows by the stores of the rounds passed; the loop exits only at `counter == couponMin` or, when the done signal follows the last store, with every store counted |
| CouponDao.VerdictCountsFiles | internal/db/coupon_dao.go:45-57 | with single stores and a final done signal, the verdict after exit is whether at least `couponMin` files had their flag stored |
| CouponDao.OvershootKeepsWaiting | internal/db/coupon_dao.go:52 | a pass that takes the counter from 0 past a threshold of 1 does not end the loop; the done signal later does, with counter 2 |
| CouponDao.DoubleCreditExample | internal/db/coupon_dao.go:46-51 | one file whose flag is stored again after a clearing pass is counted twice and meets a threshold of 2 |
| CouponDao.EarlyStopExample | internal/db/coupon_dao.go:39-56 | a done signal seen before the second file's store ends the loop with counter 0 though that file matches, so a threshold of 1 fails; such a schedule breaks DoneIsFinal |
| CouponDao.SearchResult.constructor | internal/db/coupon_dao.go:104 | the built result has one clear flag per file, the given threshold, nothing sent on the stop channel and the guard down |
| CouponDao.SearchResult.Store | internal/utils/coupon_validate.go:104-105 | the consumers' stores only set flags: each new flag is the old one or-ed with its arrival |
| CouponDao.SearchResult.CountAndClear | internal/db/coupon_dao.go:46-51 | one pass returns the number of flags that were set and leaves every flag clear |
| CouponDao.SearchResult.Pass | internal/db/coupon_dao.go:46-51 | the flags counted are the old ones with the round's stores merged in, and all are cleared |
| CouponDao.SearchResult.RunPasses | internal/db/coupon_dao.go:45-56 | the busy-wait loop ends as Passes says for the schedule, and the flags are left clear after any pass |
| CouponDao.SearchResult.Validate | internal/db/coupon_dao.go:31-58 | a second call returns the "already retrieved" error and changes nothing; the first sets the guard, and on exit sends one `true` and answers `counter >= couponMin`; a schedule that ends before the exit leaves it waiting |
| CouponDao.FileMatches | internal/db/coupon_dao.go:60-81 | the value a file's consumers store into its flag for a positive thread count: whether the coupon is among the lines its readers push (tied to ScanLines by FileMatchesWhenNeverStopped) |
| CouponDao.FileMatchesWhenNeverStopped | internal/db/coupon_dao.go:60-81 | with nobody stopping the readers, a file's flag is stored exactly when one of its lines equals the coupon |
| CouponDao.SearchForCoupon | internal/db/coupon_dao.go:60-81 | a file that cannot be opened gives the open error; otherwise the flag is whether the coupon is among the lines its readers push |
| CouponDao.FirstMissing | internal/db/coupon_dao.go:96-100 | the index found names a file that cannot be opened while every earlier file can be; there is none exactly when all files can be opened |
| CouponDao.SearchLoop | internal/db/coupon_dao.go:96-103 | the loop over the configured files with ten threads each: the first unopenable file ends it with its error, otherwise one flag per file (properties in SearchLoopFails and SearchLoopSucceeds) |
| CouponDao.SearchLoopFails | internal/db/coupon_dao.go:96-100 | the loop over the files fails with the open error of the first file that cannot be opened |
| CouponDao.SearchLoopSucceeds | internal/db/coupon_dao.go:96-103 | when every file can be opened, the loop yields one flag per file, in file order |
| CouponDao.SearchFiles | internal/db/coupon_dao.go:94-103 | the loop method computes what SearchLoop describes |
| CouponDao.SearchForCouponInGivenFiles | internal/db/coupon_dao.go:84-105 | the first unopenable file aborts with its error and builds nothing; otherwise a fresh result with one clear flag per file, the dao's threshold, guard down, and the per-file match values in file order |
| CouponDao.SearchVerdict | internal/db/coupon_dao.go:31-105 | with no stops, single stores and a final done signal, the first Validate on a fresh result answers whether at least `couponMin` configured files contain the coupon line |
| OrderService.Utf8Width | internal/services/api_order_service.go:78 | a character takes 1 to 4 bytes, and exactly 1 when it is ASCII |
| OrderService.ByteLength | internal/services/api_order_service.go:78 | Go's `len` is between the character count and four times it, and equals the character count for an ASCII string |
| OrderService.ByteLengthAppend | internal/services/api_order_service.go:78 | the byte length of two strings joined is the sum of their byte lengths |
| OrderService.ByteLengthNonAscii | internal/services/api_order_service.go:78 | a string with a non-ASCII character has more bytes than characters |
| OrderService.TestCouponLengths | internal/services/api_order_service_test.go:44-61 | "SHORT" is 5 bytes and fails the length gate; "HAPPYHOURS" is 10 and passes |
| OrderService.Lookups | internal/services/api_order_service.go:95-107 | one product per item, in item order, each the catalog entry for the item's id |
| OrderService.LookupCalls | internal/services/api_order_service.go:95 | one GetProduct call per item, in item order, with the item's product id |
| OrderService.CheckLoop | internal/services/api_order_service.go:91-108 | the item loop from item `k`: a non-positive quantity is refused before a lookup, an unknown product after it, and a passing item adds its product and its GetProduct call (properties in CheckLoopAccepts and CheckLoopRejects) |
| OrderService.CheckLoopAccepts | internal/services/api_order_service.go:91-108 | when every item from `k` on passes, the loop is through with their products and lookups appended in order |
| OrderService.CheckLoopRejects | internal/services/api_order_service.go:91-98 | the first failing item from `k` on ends the loop with its message, after the lookups of the items between |
| OrderService.CheckItemsAccepts | internal/services/api_order_service.go:91-108 | a request whose items all pass is through with one lookup and one product per item, in order |
| OrderService.CheckItemsRejects | internal/services/api_order_service.go:91-98 | a request whose first failing item is `j` is refused with that item's message, after the lookups of the items before it |
| OrderService.CheckItemsAcceptsIff | internal/services/api_order_service.go:91-108 | the item loop is through exactly when every item has a positive quantity and a known product |
| OrderService.FirstFailing | internal/services/api_order_service.go:91-98 | the index found is an item that fails a check while every item before it passes |
| OrderService.Decide | internal/services/api_order_service.go:69-137 | PlaceOrder's answer and the calls it makes, check by check in the code's order (properties in CouponLengthFirst, SearchSetupSwallowed, FirstFailingItemDecides, VerdictAfterItems, OrderPlaced) |
| OrderService.PlaceOrder | internal/services/api_order_service.go:69-137 | the method's response, error and calls are those of the decision procedure Decide |
| OrderService.CouponLengthFirst | internal/services/api_order_service.go:78-80 | a coupon outside 8 to 10 bytes gives 422 "invalid coupon code" before any call |
| OrderService.SearchSetupSwallowed | internal/services/api_order_service.go:82-85 | a failed search set-up gives the empty response and no error, and nothing is called after the search |
| OrderService.FirstFailingItemDecides | internal/services/api_order_service.go:91-98 | the first failing item gives 400 with its message; the items before it were looked up once each, and Validate is never called |
| OrderService.VerdictAfterItems | internal/services/api_order_service.go:110-114 | once every item passes, a Validate error is returned as it is with the empty response, and a false verdict gives 422; no order is created |
| OrderService.OrderPlaced | internal/services/api_order_service.go:116-136 | a true verdict makes one CreateOrder call with the id and the request's items; its error comes back with the empty response, and otherwise 200 with the items and, in order, their looked-up products |
| OrderService.ShortCouponCase | internal/services/api_order_service_test.go:43-52 | "SHORT" gives 422 and no error |
| OrderService.ZeroQuantityCase | internal/services/api_order_service_test.go:53-62 | a zero quantity gives 400 and no error |
| OrderService.UnknownProductCase | internal/services/api_order_service_test.go:63-74 | an unknown product id gives 400 and no error |
| OrderService.OrderCreatedCase | internal/services/api_order_service_test.go:75-88 | a known product, a found coupon and a successful insert give 200 and no error |
| CouponFixture.Coupons | internal/utils/coupon_validate_test.go:60-71 | the test file holds twelve coupons |
| CouponFixture.CouponsArePlain | internal/utils/coupon_validate_test.go:60-71 | no coupon holds a newline or ends with a carriage return |
| CouponFixture.CouponLineStarts | internal/utils/coupon_validate_test.go:37-43 | coupons 4, 5, 8, 9, 11 and 12 start at offsets 36, 46, 82, 93, 119 and 135, and a thirteenth would start at 147 |
| CouponFixture.CouponFileSize | internal/utils/coupon_validate_test.go:43 | the test file is 146 bytes long |
| CouponFixture.CouponProbes | internal/utils/coupon_validate.go:73-87 | probes from the naive cuts 36, 82 and 129 stop at 46, 93 and 135 |
| CouponFixture.PlanOfFour | internal/utils/coupon_validate.go:64-91 | any 146-byte file whose probes from 36, 82 and 129 stop at 46, 93 and 135 is planned into those four chunks |
| CouponFixture.FixturePlan | internal/utils/coupon_validate_test.go:34-43 | the test file in four chunks is `[0,46) [46,93) [93,135) [135,146)` |
| CouponFixture.FixtureLines | internal/utils/coupon_validate_test.go:60-71 | scanning the test file gives back exactly its twelve coupons, in order |
| CouponFixture.FixtureReadFile | internal/utils/coupon_validate_test.go:83-100 | ReadFile with four readers and no stop pushes every expected coupon |

## Left out

- Goroutines, channels, `sync.WaitGroup` and `atomic.Bool` are abstracted as described above.
  - The readers of a file run in chunk order. The consumers of a file run one after another, the first taking lines until the match.
  - The `ctx.Done()` watcher and the stop relay are not modelled (coupon_dao.go:63-68, 85-93). Their effect is the stop-signal input.
  - Races are not modelled: a reader pushing while a consumer scans, or a flag stored while a pass clears it.
  - The completion goroutine in `Validate` sets the done signal after only the first wait group (coupon_dao.go:39-44). That is ordinary sequential code, and Validate's schedule allows it: every Round's `done` is free. Only SearchVerdict's DoneIsFinal rules it out.
- CouponDao.SearchVerdict: it assumes every file's flag is stored in a single round and the done signal comes only after the last store. Without these assumptions the Go loop can count a file twice, as DoubleCreditExample shows, or stop before a later file's store, as EarlyStopExample shows.
- The duplicate `SearchForCoupon` in api_order_service.go:26-47 is the same code as `searchForCoupon` in coupon_dao.go:60-81, which is modelled once.
- File I/O is a map from path to bytes. A failing `os.Open` and a failing `File.Stat` are one error. `File.ReadAt` fails exactly when it would read past the end of the file.
- `bufio.Scanner`'s 64 KiB token limit and its own read errors are not modelled, since the buffer is in memory.
- A Go integer overflow in the planner's `int64` offsets is not modelled: offsets are unbounded naturals.
- `n == 0` makes `SplitFileToNchunks` divide by zero and `to < from` makes `make` panic in `ReadFileChunk`. Both are excluded by preconditions.
- A negative thread count makes `make(chan string, numberOfThreads*100)` panic in `searchForCoupon` (coupon_dao.go:69). `SearchForCoupon` and `FileMatches` require a positive count; the only caller passes 10.
- The coupon strings are Dafny strings. Their UTF-8 byte length is computed. Invalid UTF-8 is not modelled.
- Prices are `float32` values that are only copied; a real stands for them.
- The `log` output, the `recover` in `PlaceOrder` (api_order_service.go:70-76) and the `uuid` generator (an input) are left out.
- The SQL DAOs (product_dao.go, order_dao.go), the struct-tag validation, the HTTP layer, `main.go`, `cmd/foodorder/main.go` and config/config.go are not part of this model.
- The interface mismatch is not modelled: common.go:54 declares `SearchForCouponInGivenFiles` without the context that coupon_dao.go:84 takes. The search is an oracle of `PlaceOrder`.
