# html-word-counter: the counting core, in Dafny

`go-counter` reads lines from its input, treats every line as a URL, fetches
it, counts the occurrences of a word (`-w`, default `go`) in the fetched
body and prints a per-URL count and a grand total. At most `-n` (default 5)
fetches hold a slot of the limiter channel at once.

This project models `counter/counter.go`'s counting arithmetic and its
bookkeeping, in three layers:

- `bytes_count.dfy`, module `ByteCount`: `bytes.Count(line, word)` for a
  non-empty word. `Count` is the recursive left-to-right scan that resumes just
  past each match. `CountOccurrences` is the same scan written as a loop and
  proved equal to `Count`. The lemmas show that `Count` is the number of
  leftmost-first matches, that no choice of non-overlapping occurrences is
  larger, that it is zero exactly when the word is absent, and that it is at
  most `|line| / |word|`.
- `scan_lines.dfy`, module `Lines`: `bufio.ScanLines`. It splits on `'\n'`,
  drops one trailing `'\r'` and keeps a last line that has no newline.
  `ScanNext` is one step of the scanner. The lemmas cover: lines never
  contain a newline; a round trip for data in which no line ends in `'\r'`; splitting
  is additive after a newline; there is one line per newline, plus one for
  an unterminated tail.
- `counter.dfy`, module `Counter`: one task's total over the lines of its
  body (`TaskTotal` against `TaskCount`), and the run. The run is a
  sequential fold over the input lines. Each line becomes one task with a
  fetch outcome, `Failure` or `Success(body)`. The state is an `Aggregate`:
  `app.total`, the limiter channel's occupancy and the WaitGroup counter.
  The class `App` holds the same state as fields. Its `CountWords` and
  `Run` methods update them in place and are proved equal to the fold.

The code is modelled as written. Three facts about it shape the model:
- The limiter is a buffered channel of capacity `-n`, used as a semaphore.
  The flag's help text (line 42) calls `-n` the "max number of concurrent
  workers". A task takes a slot by sending at line 83. It gives the slot back
  only on the success path, at line 106. A failed fetch returns at line 89,
  before that receive, so its slot stays taken. Once `-n` slots have leaked
  this way, every later send waits forever. That task's deferred `wg.Done`
  then never runs, and `run` never reaches `Total:` (outcome `Stuck`). See
  "Findings".
- Every scanned line starts a task, empty lines included (lines 70-73).
- Matching is exact, byte for byte.

A negative `-n` makes `make(chan struct{}, n)` panic (outcome `Panicked`).
`-n 0` gives an unbuffered channel that no one receives from, so every task
blocks.

## Model

| member | source | states |
|---|---|---|
| ByteCount.Count | counter/counter.go:98 | the non-overlapping count of the word in a line, with `|word| * count <= |line|` |
| ByteCount.GreedyMatchesAreGreedy | counter/counter.go:98 | the scan's matches are exactly `Count` many, and each is the first occurrence at or after the end of the previous match, with none left after the last |
| ByteCount.GreedyIsNonOverlapping | counter/counter.go:98 | a greedy scan's matches are occurrences, in increasing order, and share no byte |
| ByteCount.CountIsMaximal | counter/counter.go:98 | no set of non-overlapping occurrences is larger than `Count` |
| ByteCount.CountIsMaximum | counter/counter.go:98 | `Count` is the size of the largest non-overlapping set of occurrences, and the left-to-right scan attains it |
| ByteCount.CountZeroIffAbsent | counter/counter.go:98 | the count is 0 if and only if the word occurs nowhere in the line |
| ByteCount.CountBound | counter/counter.go:98 | the count is at most `|line| / |word|`, and 0 when the word is longer than the line |
| ByteCount.OverlapCountedOnce | counter/counter.go:98 | overlapping candidates count once: one `aa` in `aaa`, two in `aaaa` |
| ByteCount.CountOccurrences | counter/counter.go:98 | the loop that scans left to right and resumes past each match returns `Count` |
| Lines.DropCR | counter/counter.go:95-97 | a line ending in `'\r'` loses exactly that byte; any other line is kept whole |
| Lines.CRLFEndsLine | counter/counter.go:95-97 | a line ended by `"\r\n"` is scanned without the `'\r'` and the `'\n'`, and the scan continues after them |
| Lines.IndexByte | counter/counter.go:95-96 | the index the line splitter looks for: -1, or an index that holds the byte |
| Lines.IndexByteIsFirst | counter/counter.go:95-96 | no earlier index holds the byte, and none at all when the result is -1 |
| Lines.ScanLines | counter/counter.go:69-70 | `bufio.ScanLines`' split of the data into lines; no lines exactly when the data is empty |
| Lines.LinesHaveNoNewline | counter/counter.go:95-97 | no scanned line contains `'\n'` |
| Lines.ScanLinesRoundTrip | counter/counter.go:95-97 | for data in which no line ends in `'\r'`, terminating every line with `'\n'` gives back the data, with one `'\n'` added when the last line lacked it |
| Lines.ScanLinesAppend | counter/counter.go:95-97 | scanning `x + y` gives the lines of `x` and then those of `y` when `x` ends with a newline |
| Lines.LineCount | counter/counter.go:69-70 | the number of lines is the number of newlines, plus one for a non-empty unterminated tail |
| Lines.LinesFitInData | counter/counter.go:95-97 | the lines' total length never exceeds the data's length |
| Lines.ScanNext | counter/counter.go:96-97 | one scanner step yields the next line and moves strictly forward, and the rest of the scan is unchanged |
| Counter.SumCounts | counter/counter.go:96-98 | the per-line counts added up; 0 exactly when no line holds the word |
| Counter.TaskCount | counter/counter.go:93-99 | the count over the scanned lines of a fetched body; 0 exactly when no scanned line holds the word |
| Counter.TaskTotal | counter/counter.go:93-99 | the per-line counts over the scanned body, summed by the scanner loop, equal `TaskCount` |
| Counter.EmptyBodyCountsZero | counter/counter.go:93-99 | an empty body counts 0 |
| Counter.TaskCountAdditive | counter/counter.go:93-99 | a body cut after a newline counts the sum of its two pieces |
| Counter.TaskCountBound | counter/counter.go:93-99 | a task's count is at most `|body| / |word|` |
| Counter.NoMatchAcrossNewline | counter/counter.go:95-98 | a word containing `'\n'` is never counted, because every occurrence of it spans a line break |
| Counter.SpanningMatchExample | counter/counter.go:95-98 | the body `a\nb` holds the word `a\nb` once, yet its task counts 0 |
| Counter.Worker | counter/counter.go:82-107 | one `countWords` task: it finishes (the WaitGroup counter drops) exactly when a slot was free; the total never shrinks; it keeps a slot exactly when it got one and its fetch failed |
| Counter.Dispatch | counter/counter.go:71-72 | `wg.Add(1)` and then the task: the WaitGroup counter is back where it was exactly when a slot was free, and otherwise one higher |
| Counter.Fold | counter/counter.go:70-73 | the tasks of all lines in dispatch order: the WaitGroup counter grows by at most one per task, and the total never shrinks |
| Counter.RunOutcome | counter/counter.go:65-79 | how `run` ends: a panic exactly when `-n` is negative, and a printed total is never negative |
| Counter.DispatchEffect | counter/counter.go:83-106 | a task on a full limiter only stays pending; a failed fetch leaves the total unchanged and keeps its slot; a success adds exactly its count and changes nothing else |
| Counter.FoldAppend | counter/counter.go:70-73 | dispatching two lists of tasks one after the other is dispatching their concatenation |
| Counter.FoldKeepsLimits | counter/counter.go:67-83 | occupancy never exceeds `workersNum`, and the WaitGroup counter never falls below its start |
| Counter.FullLimiterBlocks | counter/counter.go:83-84 | once occupancy reaches `workersNum`, no later task gets a slot, and each stays pending |
| Counter.FoldWhenSlotsSuffice | counter/counter.go:70-75 | when every task finds a slot, all finish, the total grows by the sum of the successful counts, and occupancy grows by the number of failures |
| Counter.FoldWhenSlotsRunOut | counter/counter.go:75-89 | when some task finds no slot, the WaitGroup counter stays above zero |
| Counter.RunOutcomeIsSum | counter/counter.go:65-79 | a run prints a total if and only if `workersNum >= 0` and every task finds a slot; the total is then the sum of the successful counts, and 0 for empty input |
| Counter.LeakedSlotsAfterRun | counter/counter.go:86-106 | after a finished run the limiter holds one slot per failed fetch |
| Counter.OneTaskPerLine | counter/counter.go:69-73 | one task per scanned input line, empty lines included |
| Counter.SumSuccessPermutation | counter/counter.go:102-104 | the sum of the successful counts is the same for any permutation of the tasks |
| Counter.FinishedTotalIsOrderIndependent | counter/counter.go:70-76 | two orders of the same tasks that both finish print the same total |
| Counter.LeakedSlotBlocksLaterTask | counter/counter.go:83-106 | with one slot, a failure then a success leaves the success pending forever, but the other order finishes |
| Counter.TooManyFailuresAlwaysStuck | counter/counter.go:83-106 | more failed fetches than `-n` slots leave some task waiting forever, in every order |
| Counter.WorkerReleasing | counter/counter.go:83-106 | `countWords` with the slot given back on every path: it never keeps a slot, and finishes exactly when a slot was free |
| Counter.FoldReleasing | counter/counter.go:70-73 | the run with that corrected task: the occupancy ends where it started |
| Counter.ReleasingFoldAlwaysFinishes | counter/counter.go:83-106 | with release on every path and a free slot, every run finishes with the sum of the successful counts |
| Counter.App.constructor | counter/counter.go:28-36 | a new `appEnv` has total 0, no slot held and nothing pending |
| Counter.App.CountWords | counter/counter.go:82-107 | `countWords` updates the fields as `Worker` says; a full limiter leaves them unchanged; a failure leaves the total unchanged; a success adds its `TaskCount` and keeps the occupancy |
| Counter.App.Run | counter/counter.go:65-79 | `run` dispatches one task per scanned line, leaves the fields equal to the fold, and returns the outcome `RunOutcome` |

## Findings

| source | as written | input that shows it | evidently intended | confidence | as-written member | corrected member |
|---|---|---|---|---|---|---|
| counter/counter.go:86-90 | a failed fetch returns before `<-limit` (line 106), so its limiter slot is never given back | `-n 1`, input lines `u1` and `u2`, both fetches failing: whichever task sends first leaks the only slot, the other waits at line 83 forever, and `wg.Wait` never returns. In general: more failed fetches than `-n`, in any order (`Counter.TooManyFailuresAlwaysStuck`). With one failure and one success, only the order failure-first hangs | with `-n` at least 1, release the slot on every exit path (a deferred receive), so a failure costs no slot and every run finishes; with `-n 0` every send still blocks | not executed; follows from the code | Counter.LeakedSlotBlocksLaterTask | Counter.ReleasingFoldAlwaysFinishes |

The class `App` and the fold follow the code as written. `WorkerReleasing` and
`FoldReleasing` are the task and the run with the slot given back on every
exit path. Only the finding above refers to them.

## Left out

- Flag parsing, standard-input detection, opening the input file and the exit codes of `CLI` (counter/counter.go:15-63) are I/O plumbing. The input is given to `Run` as a byte sequence.
- `http.Get` and closing the response body (counter/counter.go:86, 91) are network I/O. The network is the parameter `fetch`, a function from URL to `Failure` or `Success(body)`. It gives the same outcome for the same URL.
- Goroutines, `sync.RWMutex` and the blocking of `sync.WaitGroup` and the channel (counter/counter.go:32-33, 71-72, 75, 83, 102-104) are not modelled as concurrency. Tasks run one after another in dispatch order. The channel is its occupancy, and a task that finds it full never runs. A real run schedules goroutines in any order, so which tasks block on leaked slots can differ from the dispatch order.
- Counter.App.Run: `Stuck` stands for `wg.Wait` never returning. The model does not say whether the Go runtime then aborts with a deadlock error or waits for ever.
- All printing (counter/counter.go:22, 57, 76, 88, 100) is output only. `Done(total)` carries the value that `Total:` prints.
- `bufio.Scanner`'s 64 KiB token limit and the unchecked `scanner.Err()` (counter/counter.go:69-70, 95-96) are library buffering. The model assumes every line fits.
- An empty word: Go's `bytes.Count` then returns the rune count plus one, which needs UTF-8 decoding. Every member requires a non-empty word.
- `app.total` is a Go `int`. The model uses unbounded integers, so a total beyond 64 bits would not wrap around here.
- Case-insensitive matching is not part of this file. The model matches bytes exactly.
