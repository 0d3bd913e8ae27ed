// The counting and aggregation of `counter/counter.go`, run sequentially:
// every input line is a task; a task takes a slot of the limiter channel,
// fetches its URL, counts the word line by line in the fetched body, adds
// its count to the shared total and gives its slot back. The network is a
// parameter (`fetch`), the goroutines run one after another in dispatch
// order, and the limiter channel is its occupancy, a number.

module Counter {
  import opened ByteCount
  import opened Lines

  /** An input line, used as the URL to fetch. */
  type Url = seq<byte>

  /** What `http.Get` gives a task: an error, or a response body. */
  datatype Fetch = Failure | Success(body: seq<byte>)

  /* ---------------------------------------------------------------------- */
  /* One task: the count of the word over the lines of one fetched body      */
  /* ---------------------------------------------------------------------- */

  /** The per-line counts of `word` over `lines`, added up. */
  function SumCounts(lines: seq<seq<byte>>, word: seq<byte>): (n: nat)
    requires |word| > 0
    ensures n == 0 <==> forall k :: 0 <= k < |lines| ==> Count(lines[k], word) == 0
  {
    if lines == [] then 0 else Count(lines[0], word) + SumCounts(lines[1..], word)
  }

  /** What one successful task adds to the total: the count over the scanned lines of its body. */
  function TaskCount(body: seq<byte>, word: seq<byte>): (n: nat)
    requires |word| > 0
    ensures n == 0 <==> forall line :: line in ScanLines(body) ==> Count(line, word) == 0
  {
    var lines := ScanLines(body);
    assert (forall line :: line in lines ==> Count(line, word) == 0) <==>
           (forall k :: 0 <= k < |lines| ==> Count(lines[k], word) == 0);
    assert SumCounts(lines, word) == 0 <==> forall k :: 0 <= k < |lines| ==> Count(lines[k], word) == 0;
    SumCounts(lines, word)
  }

  lemma {:induction false} SumCountsAppend(a: seq<seq<byte>>, b: seq<seq<byte>>, word: seq<byte>)
    requires |word| > 0
    ensures SumCounts(a + b, word) == SumCounts(a, word) + SumCounts(b, word)
    decreases |a|
  {
    if a == [] {
      assert a + b == b;
    } else {
      assert (a + b)[1..] == a[1..] + b;
      SumCountsAppend(a[1..], b, word);
    }
  }

  /** An empty body counts nothing. */
  lemma EmptyBodyCountsZero(word: seq<byte>)
    requires |word| > 0
    ensures TaskCount([], word) == 0
  {
  }

  /**
    * Splitting a body after a newline splits its count: the task total is
    * additive over pieces that end with a newline.
    */
  lemma TaskCountAdditive(x: seq<byte>, y: seq<byte>, word: seq<byte>)
    requires |word| > 0
    requires x == [] || x[|x| - 1] == LF
    ensures TaskCount(x + y, word) == TaskCount(x, word) + TaskCount(y, word)
  {
    ScanLinesAppend(x, y);
    SumCountsAppend(ScanLines(x), ScanLines(y), word);
  }

  lemma {:induction false} SumCountsBound(lines: seq<seq<byte>>, word: seq<byte>)
    requires |word| > 0
    ensures |word| * SumCounts(lines, word) <= TotalLength(lines)
    decreases |lines|
  {
    if lines != [] {
      SumCountsBound(lines[1..], word);
      var c, rest := Count(lines[0], word), SumCounts(lines[1..], word);
      BoundsAdd(|word|, c, rest, |lines[0]|, TotalLength(lines[1..]));
    }
  }

  lemma BoundsAdd(m: nat, c: nat, r: nat, x: nat, y: nat)
    requires m * c <= x && m * r <= y
    ensures m * (c + r) <= x + y
  {
    assert m * (c + r) == m * c + m * r;
  }

  /** A task never counts more than `|body| / |word|` matches. */
  lemma TaskCountBound(body: seq<byte>, word: seq<byte>)
    requires |word| > 0
    ensures TaskCount(body, word) <= |body| / |word|
  {
    SumCountsBound(ScanLines(body), word);
    LinesFitInData(body);
    DivLowerBound(|word|, TaskCount(body, word), |body|);
  }

  /**
    * Matches are looked for inside lines only: a word that holds a newline,
    * so that every occurrence of it in the body spans a line break, is
    * never counted.
    */
  lemma NoMatchAcrossNewline(body: seq<byte>, word: seq<byte>)
    requires |word| > 0 && LF in word
    ensures TaskCount(body, word) == 0
  {
    LinesHaveNoNewline(body);
    NoMatchInLines(ScanLines(body), word);
  }

  lemma {:induction false} NoMatchInLines(lines: seq<seq<byte>>, word: seq<byte>)
    requires |word| > 0 && LF in word
    requires NoNewlineIn(lines)
    ensures SumCounts(lines, word) == 0
    decreases |lines|
  {
    if lines != [] {
      var line := lines[0];
      assert LF !in line;
      var k := IndexByte(word, LF);
      IndexByteIsFirst(word, LF);
      forall p ensures !OccursAt(line, word, p) {
        if 0 <= p && p + |word| <= |line| {
          assert line[p..p + |word|][k] == line[p + k];
        }
      }
      CountZeroIffAbsent(line, word);
      NoMatchInLines(lines[1..], word);
    }
  }

  /** The body "a\nb" holds the word "a\nb" once, yet its task counts 0. */
  lemma SpanningMatchExample()
    ensures Count([97, 10, 98], [97, 10, 98]) == 1
    ensures TaskCount([97, 10, 98], [97, 10, 98]) == 0
  {
    var w: seq<byte> := [97, 10, 98];
    assert w[..|w|] == w && w[|w|..] == [];
    assert w[1] == LF;
    NoMatchAcrossNewline(w, w);
  }

  /**
    * The loop of `countWords` over the fetched body: scan it line by line
    * and add up each line's count.
    */
  method TaskTotal(body: seq<byte>, word: seq<byte>) returns (total: nat)
    requires |word| > 0
    ensures total == TaskCount(body, word)
  {
    total := 0;
    var pos := 0;
    while pos < |body|
      invariant 0 <= pos <= |body|
      invariant total + TaskCount(body[pos..], word) == TaskCount(body, word)
      decreases |body| - pos
    {
      var line, next := ScanNext(body, pos);
      var n := CountOccurrences(line, word);
      assert ([line] + ScanLines(body[next..]))[1..] == ScanLines(body[next..]);
      total := total + n;
      pos := next;
    }
  }

  /* ---------------------------------------------------------------------- */
  /* The run: a sequential fold of the tasks over the shared state           */
  /* ---------------------------------------------------------------------- */

  /**
    * The state the tasks share: `app.total`, the number of slots held in the
    * limiter channel, and the WaitGroup counter (tasks added and not done).
    */
  datatype Aggregate = Aggregate(total: int, occupancy: nat, pending: nat)

  /** The state before any task: nothing counted, no slot held, nothing to wait for. */
  const Initial := Aggregate(0, 0, 0)

  /**
    * One `countWords` goroutine, already added to the WaitGroup. Sending on a
    * full limiter blocks forever, so the task then never reaches its
    * deferred `wg.Done`. A failed fetch returns early: `wg.Done` runs but the
    * slot is never given back. A success adds the task's count to the total
    * and gives its slot back.
    */
  function Worker(a: Aggregate, workersNum: int, word: seq<byte>, fetched: Fetch): (r: Aggregate)
    requires |word| > 0 && a.pending > 0
    ensures r.pending < a.pending <==> a.occupancy < workersNum
    ensures a.total <= r.total && r.occupancy <= a.occupancy + 1
    ensures r.occupancy > a.occupancy <==> a.occupancy < workersNum && fetched.Failure?
  {
    if a.occupancy >= workersNum then a
    else match fetched
      case Failure => a.(occupancy := a.occupancy + 1, pending := a.pending - 1)
      case Success(body) => a.(total := a.total + TaskCount(body, word), pending := a.pending - 1)
  }

  /** One turn of the dispatch loop of `run`: `wg.Add(1)`, then the task. */
  function Dispatch(a: Aggregate, workersNum: int, word: seq<byte>, fetched: Fetch): (r: Aggregate)
    requires |word| > 0
    ensures r.pending == a.pending <==> a.occupancy < workersNum
    ensures a.pending <= r.pending <= a.pending + 1 && a.total <= r.total
  {
    Worker(a.(pending := a.pending + 1), workersNum, word, fetched)
  }

  /** The tasks dispatched in order, from state `a`. */
  function Fold(a: Aggregate, workersNum: int, word: seq<byte>, tasks: seq<Fetch>): (r: Aggregate)
    requires |word| > 0
    ensures a.pending <= r.pending <= a.pending + |tasks|
    ensures a.total <= r.total
    decreases |tasks|
  {
    if tasks == [] then a else Fold(Dispatch(a, workersNum, word, tasks[0]), workersNum, word, tasks[1..])
  }

  /** What the network gives each line, in order: one task per line. */
  function Fetched(lines: seq<Url>, fetch: Url -> Fetch): seq<Fetch>
  {
    seq(|lines|, k requires 0 <= k < |lines| => fetch(lines[k]))
  }

  lemma FetchedSnoc(lines: seq<Url>, url: Url, fetch: Url -> Fetch)
    ensures Fetched(lines + [url], fetch) == Fetched(lines, fetch) + [fetch(url)]
  {
  }

  /** The counts of the successful tasks, added up. */
  function SumSuccess(tasks: seq<Fetch>, word: seq<byte>): nat
    requires |word| > 0
  {
    if tasks == [] then 0
    else (if tasks[0].Success? then TaskCount(tasks[0].body, word) else 0) + SumSuccess(tasks[1..], word)
  }

  /** The number of failed fetches among `tasks`. */
  function Failures(tasks: seq<Fetch>): nat
  {
    if tasks == [] then 0 else (if tasks[0].Failure? then 1 else 0) + Failures(tasks[1..])
  }

  /**
    * Every task finds a free slot: the slots already held plus those leaked
    * by the failures before the last task stay below the capacity.
    */
  predicate SlotsSuffice(occupancy: nat, workersNum: int, tasks: seq<Fetch>)
  {
    tasks == [] || occupancy + Failures(tasks[..|tasks| - 1]) < workersNum
  }

  /** How a run ends. */
  datatype Outcome =
    | Panicked      // `make(chan struct{}, n)` with a negative `n`
    | Stuck         // some task waits forever for a slot, so `wg.Wait` never returns
    | Done(total: int)  // every task finished; `total` is what "Total: %d" prints

  /** `run` over the scanned input with limiter capacity `workersNum`. */
  function RunOutcome(word: seq<byte>, workersNum: int, input: seq<byte>, fetch: Url -> Fetch): (r: Outcome)
    requires |word| > 0
    ensures r == Panicked <==> workersNum < 0
    ensures r.Done? ==> r.total >= 0
  {
    if workersNum < 0 then Panicked
    else
      var a := Fold(Initial, workersNum, word, Fetched(ScanLines(input), fetch));
      if a.pending == 0 then Done(a.total) else Stuck
  }

  /* ---------------------------------------------------------------------- */
  /* Properties of the fold                                                  */
  /* ---------------------------------------------------------------------- */

  /**
    * A failed fetch leaves the total alone and keeps its slot; a successful
    * one adds exactly its task count and gives its slot back; a task that
    * finds the limiter full changes nothing but stays pending.
    */
  lemma DispatchEffect(a: Aggregate, workersNum: int, word: seq<byte>, fetched: Fetch)
    requires |word| > 0
    ensures var b := Dispatch(a, workersNum, word, fetched);
      if a.occupancy >= workersNum then b == a.(pending := a.pending + 1)
      else if fetched.Failure? then b == a.(occupancy := a.occupancy + 1)
      else b == a.(total := a.total + TaskCount(fetched.body, word))
  {
  }

  lemma {:induction false} FoldAppend(a: Aggregate, workersNum: int, word: seq<byte>, t1: seq<Fetch>, t2: seq<Fetch>)
    requires |word| > 0
    ensures Fold(a, workersNum, word, t1 + t2) == Fold(Fold(a, workersNum, word, t1), workersNum, word, t2)
    decreases |t1|
  {
    if t1 == [] {
      assert t1 + t2 == t2;
    } else {
      assert (t1 + t2)[1..] == t1[1..] + t2;
      FoldAppend(Dispatch(a, workersNum, word, t1[0]), workersNum, word, t1[1..], t2);
    }
  }

  lemma FoldSnoc(a: Aggregate, workersNum: int, word: seq<byte>, tasks: seq<Fetch>, t: Fetch)
    requires |word| > 0
    ensures Fold(a, workersNum, word, tasks + [t]) == Dispatch(Fold(a, workersNum, word, tasks), workersNum, word, t)
  {
    FoldAppend(a, workersNum, word, tasks, [t]);
  }

  /** The limiter never holds more than `workersNum` slots, and pending tasks never go away. */
  lemma {:induction false} FoldKeepsLimits(a: Aggregate, workersNum: int, word: seq<byte>, tasks: seq<Fetch>)
    requires |word| > 0 && a.occupancy <= workersNum
    ensures Fold(a, workersNum, word, tasks).occupancy <= workersNum
    ensures Fold(a, workersNum, word, tasks).pending >= a.pending
    decreases |tasks|
  {
    if tasks != [] {
      FoldKeepsLimits(Dispatch(a, workersNum, word, tasks[0]), workersNum, word, tasks[1..]);
    }
  }

  /** Once the limiter is full, no further task gets a slot: each one stays pending. */
  lemma {:induction false} FullLimiterBlocks(a: Aggregate, workersNum: int, word: seq<byte>, tasks: seq<Fetch>)
    requires |word| > 0 && a.occupancy >= workersNum
    ensures Fold(a, workersNum, word, tasks) == a.(pending := a.pending + |tasks|)
    decreases |tasks|
  {
    if tasks != [] {
      FullLimiterBlocks(a.(pending := a.pending + 1), workersNum, word, tasks[1..]);
    }
  }

  lemma TakeAllButLast(t: Fetch, rest: seq<Fetch>)
    requires rest != []
    ensures ([t] + rest)[..|rest|] == [t] + rest[..|rest| - 1]
  {
  }

  /**
    * When every task finds a slot, all of them finish: the total grows by
    * the sum of the successful counts, and the limiter keeps one leaked slot
    * per failed fetch.
    */
  lemma {:induction false} FoldWhenSlotsSuffice(a: Aggregate, workersNum: int, word: seq<byte>, tasks: seq<Fetch>)
    requires |word| > 0 && SlotsSuffice(a.occupancy, workersNum, tasks)
    ensures Fold(a, workersNum, word, tasks) ==
              Aggregate(a.total + SumSuccess(tasks, word), a.occupancy + Failures(tasks), a.pending)
    decreases |tasks|
  {
    if tasks != [] {
      var t, rest := tasks[0], tasks[1..];
      assert tasks == [t] + rest;
      if rest != [] {
        TakeAllButLast(t, rest);
      }
      var b := Dispatch(a, workersNum, word, t);
      assert b.occupancy == a.occupancy + (if t.Failure? then 1 else 0);
      FoldWhenSlotsSuffice(b, workersNum, word, rest);
    }
  }

  /** When some task cannot find a slot, it stays pending, so the run cannot finish. */
  lemma {:induction false} FoldWhenSlotsRunOut(a: Aggregate, workersNum: int, word: seq<byte>, tasks: seq<Fetch>)
    requires |word| > 0 && !SlotsSuffice(a.occupancy, workersNum, tasks)
    ensures Fold(a, workersNum, word, tasks).pending > a.pending
    decreases |tasks|
  {
    var t, rest := tasks[0], tasks[1..];
    assert tasks == [t] + rest;
    if a.occupancy >= workersNum {
      FullLimiterBlocks(a, workersNum, word, tasks);
    } else {
      var b := Dispatch(a, workersNum, word, t);
      if rest == [] {
        assert false;
      } else {
        TakeAllButLast(t, rest);
        FoldWhenSlotsRunOut(b, workersNum, word, rest);
      }
    }
  }

  /**
    * The run prints a total exactly when the capacity is not negative and
    * every task finds a slot; the total is then the sum of the successful
    * task counts, and 0 for an empty input.
    */
  lemma RunOutcomeIsSum(word: seq<byte>, workersNum: int, input: seq<byte>, fetch: Url -> Fetch)
    requires |word| > 0
    ensures var tasks := Fetched(ScanLines(input), fetch);
      RunOutcome(word, workersNum, input, fetch) ==
        if workersNum < 0 then Panicked
        else if SlotsSuffice(0, workersNum, tasks) then Done(SumSuccess(tasks, word))
        else Stuck
    ensures workersNum >= 0 && input == [] ==> RunOutcome(word, workersNum, input, fetch) == Done(0)
  {
    var tasks := Fetched(ScanLines(input), fetch);
    if workersNum >= 0 {
      if SlotsSuffice(0, workersNum, tasks) {
        FoldWhenSlotsSuffice(Initial, workersNum, word, tasks);
      } else {
        FoldWhenSlotsRunOut(Initial, workersNum, word, tasks);
      }
    }
  }

  /** After a finished run the limiter holds exactly one leaked slot per failed fetch. */
  lemma LeakedSlotsAfterRun(word: seq<byte>, workersNum: int, tasks: seq<Fetch>)
    requires |word| > 0 && workersNum >= 0
    requires Fold(Initial, workersNum, word, tasks).pending == 0
    ensures Fold(Initial, workersNum, word, tasks).occupancy == Failures(tasks)
  {
    if !SlotsSuffice(0, workersNum, tasks) {
      FoldWhenSlotsRunOut(Initial, workersNum, word, tasks);
    }
    FoldWhenSlotsSuffice(Initial, workersNum, word, tasks);
  }

  /** One task per scanned input line, empty lines included. */
  lemma OneTaskPerLine(input: seq<byte>, fetch: Url -> Fetch)
    ensures |Fetched(ScanLines(input), fetch)| == Count(input, [LF]) + OpenTail(input)
  {
    LineCount(input);
  }

  lemma {:induction false} SumSuccessAppend(t1: seq<Fetch>, t2: seq<Fetch>, word: seq<byte>)
    requires |word| > 0
    ensures SumSuccess(t1 + t2, word) == SumSuccess(t1, word) + SumSuccess(t2, word)
    decreases |t1|
  {
    if t1 == [] {
      assert t1 + t2 == t2;
    } else {
      assert (t1 + t2)[1..] == t1[1..] + t2;
      SumSuccessAppend(t1[1..], t2, word);
    }
  }

  /** The sum of the successful counts does not depend on the order of the tasks. */
  lemma {:induction false} SumSuccessPermutation(t1: seq<Fetch>, t2: seq<Fetch>, word: seq<byte>)
    requires |word| > 0 && multiset(t1) == multiset(t2)
    ensures SumSuccess(t1, word) == SumSuccess(t2, word)
    decreases |t1|
  {
    if t1 != [] {
      var t := t1[0];
      assert t in multiset(t2);
      var k :| 0 <= k < |t2| && t2[k] == t;
      var rest2 := t2[..k] + t2[k + 1..];
      MultisetWithoutFirst(t1, t2, k);
      SumSuccessPermutation(t1[1..], rest2, word);
      SumSuccessWithout(t2, k, word);
      assert t1 == [t] + t1[1..];
      SumSuccessAppend([t], t1[1..], word);
    }
  }

  /** Taking the first task of `t1` and an equal task of `t2` away leaves equal multisets. */
  lemma MultisetWithoutFirst(t1: seq<Fetch>, t2: seq<Fetch>, k: nat)
    requires multiset(t1) == multiset(t2) && t1 != [] && k < |t2| && t2[k] == t1[0]
    ensures multiset(t1[1..]) == multiset(t2[..k] + t2[k + 1..])
  {
    var t, rest2 := t1[0], t2[..k] + t2[k + 1..];
    assert t2 == t2[..k] + [t] + t2[k + 1..];
    assert t1 == [t] + t1[1..];
    assert multiset(t2) == multiset(t2[..k]) + multiset([t]) + multiset(t2[k + 1..]);
    assert multiset(rest2) == multiset(t2[..k]) + multiset(t2[k + 1..]);
    assert multiset(t1) == multiset([t]) + multiset(t1[1..]);
    forall x ensures multiset(t1[1..])[x] == multiset(rest2)[x] {
      assert multiset(t1)[x] == multiset(t2)[x];
    }
  }

  /** The successes of `t2` sum to those of its task `k` plus those of the others. */
  lemma SumSuccessWithout(t2: seq<Fetch>, k: nat, word: seq<byte>)
    requires |word| > 0 && k < |t2|
    ensures SumSuccess(t2, word) == SumSuccess([t2[k]], word) + SumSuccess(t2[..k] + t2[k + 1..], word)
  {
    assert t2 == t2[..k] + [t2[k]] + t2[k + 1..];
    SumSuccessAppend(t2[..k] + [t2[k]], t2[k + 1..], word);
    SumSuccessAppend(t2[..k], [t2[k]], word);
    SumSuccessAppend(t2[..k], t2[k + 1..], word);
  }

  /** Two orders of the same tasks that both finish print the same total. */
  lemma FinishedTotalIsOrderIndependent(word: seq<byte>, workersNum: int, t1: seq<Fetch>, t2: seq<Fetch>)
    requires |word| > 0 && workersNum >= 0 && multiset(t1) == multiset(t2)
    requires Fold(Initial, workersNum, word, t1).pending == 0
    requires Fold(Initial, workersNum, word, t2).pending == 0
    ensures Fold(Initial, workersNum, word, t1).total == Fold(Initial, workersNum, word, t2).total
  {
    if !SlotsSuffice(0, workersNum, t1) {
      FoldWhenSlotsRunOut(Initial, workersNum, word, t1);
    }
    if !SlotsSuffice(0, workersNum, t2) {
      FoldWhenSlotsRunOut(Initial, workersNum, word, t2);
    }
    FoldWhenSlotsSuffice(Initial, workersNum, word, t1);
    FoldWhenSlotsSuffice(Initial, workersNum, word, t2);
    SumSuccessPermutation(t1, t2, word);
  }

  /**
    * The leaked slot makes whether a run finishes depend on the order of the
    * tasks: with one slot, a failure first blocks the success after it, while
    * the same two tasks the other way round both finish.
    */
  lemma LeakedSlotBlocksLaterTask(word: seq<byte>, body: seq<byte>)
    requires |word| > 0
    ensures Fold(Initial, 1, word, [Failure, Success(body)]).pending == 1
    ensures Fold(Initial, 1, word, [Success(body), Failure]).pending == 0
  {
    var fail, ok := Aggregate(0, 1, 0), Aggregate(TaskCount(body, word), 0, 0);
    assert [Failure, Success(body)][1..] == [Success(body)];
    assert Fold(Initial, 1, word, [Failure, Success(body)]) == Fold(fail, 1, word, [Success(body)]);
    assert Fold(fail, 1, word, [Success(body)]) == Fold(fail.(pending := 1), 1, word, []);
    assert [Success(body), Failure][1..] == [Failure];
    assert Fold(Initial, 1, word, [Success(body), Failure]) == Fold(ok, 1, word, [Failure]);
    assert Fold(ok, 1, word, [Failure]) == Fold(ok.(occupancy := 1), 1, word, []);
  }

  /** Dropping the last task drops at most one failure. */
  lemma {:induction false} FailuresDropLast(tasks: seq<Fetch>)
    requires tasks != []
    ensures Failures(tasks) <= Failures(tasks[..|tasks| - 1]) + 1
    decreases |tasks|
  {
    if |tasks| > 1 {
      var rest := tasks[1..];
      FailuresDropLast(rest);
      assert tasks[..|tasks| - 1][1..] == rest[..|rest| - 1];
    }
  }

  /**
    * More failed fetches than slots leave some task waiting for ever, in
    * every dispatch order: the leaked slots fill the limiter before the last
    * task sends.
    */
  lemma TooManyFailuresAlwaysStuck(word: seq<byte>, workersNum: int, tasks: seq<Fetch>)
    requires |word| > 0 && workersNum >= 0 && Failures(tasks) > workersNum
    ensures Fold(Initial, workersNum, word, tasks).pending > 0
  {
    FailuresDropLast(tasks);
    FoldWhenSlotsRunOut(Initial, workersNum, word, tasks);
  }

  /* ---------------------------------------------------------------------- */
  /* Releasing the slot on every exit path                                   */
  /* ---------------------------------------------------------------------- */

  /** `countWords` with its slot given back on every path, failure included. */
  function WorkerReleasing(a: Aggregate, workersNum: int, word: seq<byte>, fetched: Fetch): (r: Aggregate)
    requires |word| > 0 && a.pending > 0
    ensures r.occupancy == a.occupancy && a.total <= r.total
    ensures r.pending < a.pending <==> a.occupancy < workersNum
  {
    if a.occupancy >= workersNum then a
    else match fetched
      case Failure => a.(pending := a.pending - 1)
      case Success(body) => a.(total := a.total + TaskCount(body, word), pending := a.pending - 1)
  }

  /** The tasks dispatched in order, from state `a`, each giving its slot back on every path. */
  function FoldReleasing(a: Aggregate, workersNum: int, word: seq<byte>, tasks: seq<Fetch>): (r: Aggregate)
    requires |word| > 0
    ensures r.occupancy == a.occupancy && a.total <= r.total && a.pending <= r.pending
    decreases |tasks|
  {
    if tasks == [] then a
    else FoldReleasing(WorkerReleasing(a.(pending := a.pending + 1), workersNum, word, tasks[0]),
                       workersNum, word, tasks[1..])
  }

  /**
    * With release on every path and at least one slot, every run finishes,
    * whatever fails and in whatever order, and its total is the sum of the
    * successful counts.
    */
  lemma {:induction false} ReleasingFoldAlwaysFinishes(a: Aggregate, workersNum: int, word: seq<byte>, tasks: seq<Fetch>)
    requires |word| > 0 && a.occupancy < workersNum
    ensures FoldReleasing(a, workersNum, word, tasks) == a.(total := a.total + SumSuccess(tasks, word))
    decreases |tasks|
  {
    if tasks != [] {
      ReleasingFoldAlwaysFinishes(WorkerReleasing(a.(pending := a.pending + 1), workersNum, word, tasks[0]),
                                  workersNum, word, tasks[1..]);
    }
  }

  /* ---------------------------------------------------------------------- */
  /* The application state, updated in place                                */
  /* ---------------------------------------------------------------------- */

  /** The lines scanned so far, followed by the scan of what is left, are the scan of the whole input. */
  ghost predicate ScannedUpTo(input: seq<byte>, pos: nat, lines: seq<Url>)
  {
    pos <= |input| && lines + ScanLines(input[pos..]) == ScanLines(input)
  }

  /** One scanner step keeps `ScannedUpTo`. */
  lemma ScannedStep(input: seq<byte>, pos: nat, next: nat, lines: seq<Url>, url: Url)
    requires ScannedUpTo(input, pos, lines) && next <= |input|
    requires ScanLines(input[pos..]) == [url] + ScanLines(input[next..])
    ensures ScannedUpTo(input, next, lines + [url])
  {
    AppendAssociates(lines, [url], ScanLines(input[next..]));
  }

  /** With nothing left to scan, the lines scanned are all the lines. */
  lemma ScannedAll(input: seq<byte>, lines: seq<Url>)
    requires ScannedUpTo(input, |input|, lines)
    ensures lines == ScanLines(input)
  {
    assert input[|input|..] == [];
    assert lines + [] == lines;
  }

  /** One turn of `run`'s loop extends the fold by the task of the next line. */
  lemma RunStep(a: Aggregate, workersNum: int, word: seq<byte>, lines: seq<Url>, url: Url, fetch: Url -> Fetch)
    requires |word| > 0 && a == Fold(Initial, workersNum, word, Fetched(lines, fetch))
    ensures Worker(a.(pending := a.pending + 1), workersNum, word, fetch(url)) ==
              Fold(Initial, workersNum, word, Fetched(lines + [url], fetch))
  {
    FetchedSnoc(lines, url, fetch);
    FoldSnoc(Initial, workersNum, word, Fetched(lines, fetch), fetch(url));
  }

  /** `appEnv`: the word, the limiter capacity, the shared total and the run's bookkeeping. */
  class App {
    const word: seq<byte>
    const workersNum: int
    var total: int
    var occupancy: nat  // slots held in the limiter channel
    var pending: nat    // the WaitGroup counter

    function State(): Aggregate
      reads this
    {
      Aggregate(total, occupancy, pending)
    }

    constructor (word: seq<byte>, workersNum: int)
      requires |word| > 0
      ensures this.word == word && this.workersNum == workersNum
      ensures State() == Initial
    {
      this.word := word;
      this.workersNum := workersNum;
      total, occupancy, pending := 0, 0, 0;
    }

    /** `countWords` for one task whose fetch gave `fetched`. */
    method CountWords(fetched: Fetch)
      requires |word| > 0 && pending > 0
      modifies this
      ensures State() == Worker(old(State()), workersNum, word, fetched)
      ensures old(occupancy) >= workersNum ==> unchanged(this)
      ensures fetched.Failure? ==> total == old(total)
      ensures fetched.Success? && old(occupancy) < workersNum ==>
                total == old(total) + TaskCount(fetched.body, word) && occupancy == old(occupancy)
    {
      if occupancy >= workersNum {
        // `limit <- struct{}{}` waits forever on a full channel
        return;
      }
      occupancy := occupancy + 1;
      match fetched {
        case Failure =>
          // early return: the deferred `wg.Done` runs, the slot is kept
          pending := pending - 1;
        case Success(body) =>
          var n := TaskTotal(body, word);
          total := total + n;
          occupancy := occupancy - 1;
          pending := pending - 1;
      }
    }

    /** `run`: one task per scanned input line, then wait for all of them. */
    method Run(input: seq<byte>, fetch: Url -> Fetch) returns (outcome: Outcome)
      requires |word| > 0 && State() == Initial
      modifies this
      ensures outcome == RunOutcome(word, workersNum, input, fetch)
      ensures workersNum >= 0 ==> State() == Fold(Initial, workersNum, word, Fetched(ScanLines(input), fetch))
    {
      if workersNum < 0 {
        return Panicked;
      }
      var pos := 0;
      ghost var lines: seq<Url> := [];
      while pos < |input|
        invariant 0 <= pos <= |input|
        invariant ScannedUpTo(input, pos, lines)
        invariant State() == Fold(Initial, workersNum, word, Fetched(lines, fetch))
        decreases |input| - pos
      {
        var url, next := ScanNext(input, pos);
        ghost var before := State();
        pending := pending + 1;
        CountWords(fetch(url));
        RunStep(before, workersNum, word, lines, url, fetch);
        ScannedStep(input, pos, next, lines, url);
        lines := lines + [url];
        pos := next;
      }
      ScannedAll(input, lines);
      outcome := if pending == 0 then Done(total) else Stuck;
    }
  }
}
