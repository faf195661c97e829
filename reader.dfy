/** ReaderTask: reads the input file line by line while following it, classifies
    each line, reports invalid ones and hands valid ones to the worker pool, one
    semaphore slot per job in flight. Threads are modelled as one caller: a job
    submitted to the pool runs when the reader has to wait for its slot, or when
    the pool is drained. */
module Reader {
  import opened Wrappers
  import opened JavaText
  import opened Messages
  import Channel
  import ErrorLog
  import Factorial
  import Limiter

  // ---------------------------------------------------------------------------
  // processLine's decision chain.

  /** The ints processLine accepts and hands to the pool. */
  type NonNegInt32 = v: int | 0 <= v <= INT_MAX

  /** What processLine makes of a line: a non-negative int to compute, or the
      explanation handed to the error logger. */
  datatype Verdict = Number(value: NonNegInt32) | Invalid(reason: string)

  const EMPTY_REASON: string := "empty/whitespace line"

  function NotIntegerReason(trimmed: string): string
  {
    "not a valid integer (" + trimmed + ")"
  }

  function NegativeReason(trimmed: string): string
  {
    "negative number not allowed (" + trimmed + ")"
  }

  /** The classification of ReaderTask.processLine, in its order: blank, not an
      int, negative, valid. */
  function Classify(line: string): Verdict
  {
    var s := Trim(line);
    if s == [] then Invalid(EMPTY_REASON)
    else
      match ParseInt(s)
      case None => Invalid(NotIntegerReason(s))
      case Some(v) => if v < 0 then Invalid(NegativeReason(s)) else Number(v)
  }

  /** A line is valid exactly when its trimmed text parses as an int that is not
      negative, and then that int is what gets computed. */
  lemma ClassifyNumber(line: string, v: Int32)
    ensures (Classify(line).Number? && Classify(line).value == v) <==> ParseInt(Trim(line)) == Some(v) && v >= 0
  {
    if ParseInt(Trim(line)).Some? {
      assert Trim(line) != [];
    }
  }

  /** The blank-line explanation is given exactly to lines made only of blanks. */
  lemma ClassifyBlank(line: string)
    ensures Classify(line) == Invalid(EMPTY_REASON) <==> AllBlank(line)
  {
    TrimEmptyIffAllBlank(line);
    var s := Trim(line);
    if s != [] {
      assert NotIntegerReason(s)[0] == 'n' && NegativeReason(s)[0] == 'n';
    }
  }

  /** The other two explanations quote the trimmed text, each for its own cause:
      a text Integer.parseInt rejects, or an int below zero. */
  lemma ClassifyQuotes(line: string)
    ensures Classify(line) == Invalid(NotIntegerReason(Trim(line)))
            <==> Trim(line) != [] && ParseInt(Trim(line)).None?
    ensures Classify(line) == Invalid(NegativeReason(Trim(line)))
            <==> ParseInt(Trim(line)).Some? && ParseInt(Trim(line)).value < 0
  {
  }

  /** An int written with blank padding classifies as itself when it is not
      negative, and as a negative number, quoted without the padding, when it is. */
  lemma ClassifyPadded(before: string, v: Int32, after: string)
    requires AllBlank(before) && AllBlank(after)
    ensures v >= 0 ==> Classify(before + IntToString(v) + after).Number?
                       && Classify(before + IntToString(v) + after).value == v
    ensures v < 0 ==> Classify(before + IntToString(v) + after) == Invalid(NegativeReason(IntToString(v)))
  {
    var t := IntToString(v);
    ParseIntOfIntToString(v);
    TrimStripsPadding(before, t, after);
  }

  /** Integer.parseInt accepts a leading '+' before any digit and a leading '-'
      before zero, so such a line is the valid value of its digit. */
  lemma ClassifySignedDigit(sign: char, d: nat)
    requires d < 10 && (sign == '+' || (sign == '-' && d == 0))
    ensures Classify([sign, DigitChar(d)]).Number? && Classify([sign, DigitChar(d)]).value == d
  {
    var s := [sign, DigitChar(d)];
    assert Trim(s) == s by {
      TrimStripsPadding([], s, []);
      assert [] + s + [] == s;
    }
    var digits := s[1..];
    assert digits == [DigitChar(d)] && digits[..0] == [];
    assert DigitsValue(digits) == d;
    assert ParseInt(s) == Some(d);
  }

  /** "-0" and "+7" are valid lines. */
  lemma ClassifySigned()
    ensures Classify("-0") == Number(0)
    ensures Classify("+7") == Number(7)
  {
    ClassifySignedDigit('-', 0);
    assert ['-', DigitChar(0)] == "-0";
    ClassifySignedDigit('+', 7);
    assert ['+', DigitChar(7)] == "+7";
  }

  // ---------------------------------------------------------------------------
  // The worker pool (a ThreadPoolExecutor with the AbortPolicy).

  /** A submitted factorial job: the line index and the value. */
  datatype Job = Job(index: int, value: NonNegInt32)

  /** The message a job posts when it finishes. */
  function JobResult(j: Job): Msg
  {
    Value(j.index, j.value, Factorial.Fact(j.value))
  }

  class WorkerPool {
    /** Worker threads plus the capacity of the work queue. */
    const capacity: nat
    var isShutdown: bool
    /** Accepted jobs that have not finished, oldest first. */
    var jobs: seq<Job>

    constructor (threads: nat, queueCapacity: nat)
      ensures capacity == threads + queueCapacity && !isShutdown && jobs == []
    {
      capacity := threads + queueCapacity;
      isShutdown := false;
      jobs := [];
    }

    /** ThreadPoolExecutor.submit: refused (RejectedExecutionException) once the
        pool is shut down or every thread and queue place is taken. */
    method Submit(job: Job) returns (accepted: bool)
      modifies this
      ensures accepted == (!old(isShutdown) && |old(jobs)| < capacity)
      ensures jobs == if accepted then old(jobs) + [job] else old(jobs)
      ensures isShutdown == old(isShutdown)
    {
      accepted := !isShutdown && |jobs| < capacity;
      if accepted {
        jobs := jobs + [job];
      }
    }

    /** A worker picks up the oldest outstanding job. */
    method TakeOldest() returns (job: Job)
      requires jobs != []
      modifies this
      ensures job == old(jobs)[0] && jobs == old(jobs)[1..]
      ensures isShutdown == old(isShutdown)
    {
      job := jobs[0];
      jobs := jobs[1..];
    }

    /** ThreadPoolExecutor.shutdown: queued jobs still run, new ones are refused. */
    method Shutdown()
      modifies this
      ensures isShutdown && jobs == old(jobs)
    {
      isShutdown := true;
    }
  }

  // ---------------------------------------------------------------------------
  // readWithFollow's state machine over pos, idleMs and idx.

  const POLL_MS: nat := 200

  /** One turn of the outer loop as the reader observes it: the lines read from
      pos to the end of the file, the file pointer after them, the file length
      seen after the sleep (used only when no line was read), and the clock
      reading used by the jobs run during the turn. */
  datatype Pass = Pass(lines: seq<string>, endPos: nat, length: nat, now: int)

  datatype FollowState = FollowState(pos: nat, idleMs: nat, idx: nat, stopped: bool)

  function Start(): FollowState
  {
    FollowState(0, 0, 0, false)
  }

  /** One turn of the loop: lines read reset the idle time; a grown file resets it;
      a shrunk file restarts from position 0, keeping the index; otherwise the idle
      time grows by one poll and the reader stops once it reaches the limit. */
  function FollowStep(st: FollowState, p: Pass, followIdleMs: int): FollowState
  {
    if |p.lines| > 0 then FollowState(p.endPos, 0, st.idx + |p.lines|, false)
    else if p.length > st.pos then st.(idleMs := 0)
    else if p.length < st.pos then st.(pos := 0, idleMs := 0)
    else
      var idle := st.idleMs + POLL_MS;
      st.(idleMs := idle, stopped := idle >= Max(0, followIdleMs))
  }

  /** The state when the reader stops, or when the observed passes run out. */
  function Follow(st: FollowState, passes: seq<Pass>, followIdleMs: int): FollowState
    decreases |passes|
  {
    if st.stopped || passes == [] then st
    else Follow(FollowStep(st, passes[0], followIdleMs), passes[1..], followIdleMs)
  }

  /** The lines the reader processes, in order, over those passes. */
  function ReadLines(st: FollowState, passes: seq<Pass>, followIdleMs: int): seq<string>
    decreases |passes|
  {
    if st.stopped || passes == [] then []
    else passes[0].lines + ReadLines(FollowStep(st, passes[0], followIdleMs), passes[1..], followIdleMs)
  }

  /** The loop of readWithFollow after its first i passes: it is in state `st`
      and has read `done`, and the rest of the passes lead to the same end as
      the whole run. */
  ghost predicate Tracks(passes: seq<Pass>, followIdleMs: int, i: nat, st: FollowState, done: seq<string>)
  {
    && i <= |passes|
    && Follow(st, passes[i..], followIdleMs) == Follow(Start(), passes, followIdleMs)
    && ReadLines(Start(), passes, followIdleMs) == done + ReadLines(st, passes[i..], followIdleMs)
    && st.idx == |done|
  }

  lemma TracksStart(passes: seq<Pass>, followIdleMs: int)
    ensures Tracks(passes, followIdleMs, 0, Start(), [])
  {
    assert passes[0..] == passes;
  }

  lemma TracksStep(passes: seq<Pass>, followIdleMs: int, i: nat, st: FollowState, done: seq<string>)
    requires Tracks(passes, followIdleMs, i, st, done) && i < |passes| && !st.stopped
    ensures Tracks(passes, followIdleMs, i + 1, FollowStep(st, passes[i], followIdleMs), done + passes[i].lines)
  {
    assert passes[i..][1..] == passes[i + 1..];
  }

  lemma TracksEnd(passes: seq<Pass>, followIdleMs: int, i: nat, st: FollowState, done: seq<string>)
    requires Tracks(passes, followIdleMs, i, st, done) && (i == |passes| || st.stopped)
    ensures st == Follow(Start(), passes, followIdleMs) && done == ReadLines(Start(), passes, followIdleMs)
  {
  }

  /** The index counts every line read, and a shrinking file does not reset it. */
  lemma {:induction false} FollowCountsLines(st: FollowState, passes: seq<Pass>, followIdleMs: int)
    ensures Follow(st, passes, followIdleMs).idx == st.idx + |ReadLines(st, passes, followIdleMs)|
    decreases |passes|
  {
    if !st.stopped && passes != [] {
      FollowCountsLines(FollowStep(st, passes[0], followIdleMs), passes[1..], followIdleMs);
    }
  }

  /** Number of quiet polls after which the reader gives up:
      max(1, ceil(max(0, followIdleMs) / 200)). */
  function StopPolls(followIdleMs: int): (n: nat)
    ensures n >= 1
    ensures n * POLL_MS >= Max(0, followIdleMs)
    ensures n == 1 || (n - 1) * POLL_MS < followIdleMs
  {
    if followIdleMs <= POLL_MS then 1 else (followIdleMs + POLL_MS - 1) / POLL_MS
  }

  /** A poll that finds nothing new: no line, and the length equal to pos. */
  predicate Quiet(p: Pass, pos: nat)
  {
    p.lines == [] && p.length == pos
  }

  /** j quiet polls into an idle spell, k more stop the reader exactly when
      j + k reaches StopPolls; the idle time is then 200 ms per poll taken. */
  lemma {:induction false} QuietPolls(st: FollowState, passes: seq<Pass>, followIdleMs: int, j: nat)
    requires !st.stopped && st.idleMs == j * POLL_MS && j < StopPolls(followIdleMs)
    requires forall i :: 0 <= i < |passes| ==> Quiet(passes[i], st.pos)
    ensures var r := Follow(st, passes, followIdleMs);
      && (r.stopped <==> j + |passes| >= StopPolls(followIdleMs))
      && r.idleMs == POLL_MS * (if j + |passes| >= StopPolls(followIdleMs) then StopPolls(followIdleMs) else j + |passes|)
      && r.pos == st.pos && r.idx == st.idx
    decreases |passes|
  {
    if passes != [] {
      var next := FollowStep(st, passes[0], followIdleMs);
      assert next.idleMs == (j + 1) * POLL_MS;
      assert next.stopped <==> j + 1 >= StopPolls(followIdleMs);
      if !next.stopped {
        QuietPolls(next, passes[1..], followIdleMs, j + 1);
      }
    }
  }

  /** A file that stays quiet from the start of an idle spell stops the reader
      after exactly StopPolls(followIdleMs) polls: at least one, even for a
      limit of 0 or less. */
  lemma QuietFileStops(st: FollowState, passes: seq<Pass>, followIdleMs: int)
    requires !st.stopped && st.idleMs == 0
    requires forall i :: 0 <= i < |passes| ==> Quiet(passes[i], st.pos)
    ensures Follow(st, passes, followIdleMs).stopped <==> |passes| >= StopPolls(followIdleMs)
  {
    QuietPolls(st, passes, followIdleMs, 0);
  }

  // ---------------------------------------------------------------------------
  // The reader itself.

  class ReaderTask {
    const results: Channel.MsgQueue
    const logger: ErrorLog.ErrorLogger
    const limiter: Limiter.RateLimiter
    const pool: WorkerPool
    const service: Factorial.FactorialService
    /** The semaphore's initial permits (the pool size). */
    const permits: nat

    var linesRead: nat
    var submitted: nat
    var completed: nat
    var errorsCount: nat
    /** Permits currently available on the semaphore. */
    var slots: nat

    /** Lines found invalid, lines found valid, and valid lines the pool refused. */
    ghost var invalid: nat
    ghost var valid: nat
    ghost var rejected: nat
    /** Every (index, line) handed to processLine, in call order. */
    ghost var history: seq<(int, string)>

    ghost predicate Valid()
      reads this, logger, pool, service, service.precomputed
    {
      && logger.Valid() && (logger.inlineMode ==> logger.outQueue == results)
      && service.Valid()
      && permits >= 1
      && slots + |pool.jobs| == permits
      && completed + |pool.jobs| == submitted
    }

    /** The counter totals that hold between lines: every line read is invalid
        or valid, every error is an invalid line or a refused job, and every valid
        line was either submitted or refused. */
    ghost predicate Accounted()
      reads this
    {
      && linesRead == invalid + valid == |history|
      && errorsCount == invalid + rejected
      && submitted + rejected == valid
    }

    constructor (results: Channel.MsgQueue, logger: ErrorLog.ErrorLogger, limiter: Limiter.RateLimiter,
                 pool: WorkerPool, service: Factorial.FactorialService, permits: nat)
      requires logger.Valid() && (logger.inlineMode ==> logger.outQueue == results)
      requires service.Valid() && pool.jobs == [] && permits >= 1
      ensures Valid() && Accounted() && slots == permits && history == []
      ensures linesRead == 0 && submitted == 0 && completed == 0 && errorsCount == 0
      ensures this.results == results && this.logger == logger && this.limiter == limiter
      ensures this.pool == pool && this.service == service && this.permits == permits
    {
      this.results := results;
      this.logger := logger;
      this.limiter := limiter;
      this.pool := pool;
      this.service := service;
      this.permits := permits;
      linesRead, submitted, completed, errorsCount := 0, 0, 0, 0;
      slots := permits;
      invalid, valid, rejected := 0, 0, 0;
      history := [];
    }

    /** What the error path adds to the results channel: the raw line first when
        errors go inline, then the SKIP that closes the index. */
    function InvalidMessages(index: int, originalLine: string): seq<Msg>
      reads this, logger
    {
      (if logger.inlineMode then [Raw(index, originalLine)] else []) + [Skip(index)]
    }

    /** The body of a submitted job: wait for the rate limiter, compute n!, post
        RESULT(idx, v, v!), then count it completed and release its slot. */
    method RunJob(now: int)
      requires Valid() && pool.jobs != []
      modifies this, results, pool, limiter, service
      ensures Valid()
      ensures pool.jobs == old(pool.jobs)[1..] && pool.isShutdown == old(pool.isShutdown)
      ensures results.items == old(results.items) + [JobResult(old(pool.jobs)[0])]
      ensures completed == old(completed) + 1 && slots == old(slots) + 1
      ensures submitted == old(submitted) && errorsCount == old(errorsCount)
      ensures linesRead == old(linesRead) && history == old(history)
      ensures invalid == old(invalid) && valid == old(valid) && rejected == old(rejected)
      ensures limiter.nextFreeNanos
              == Limiter.Target(old(limiter.nextFreeNanos), now) + limiter.nanosPerPermit
    {
      var job := pool.TakeOldest();
      var _, _ := limiter.Acquire(now);
      var fact := service.Factorial(job.value);
      results.Put(Value(job.index, job.value, fact.value));
      completed := completed + 1;
      slots := slots + 1;
    }

    /** ReaderTask.handleInvalidLine: hand the line to the error logger, count the
        error, and post SKIP(idx). */
    method HandleInvalidLine(index: int, originalLine: string, message: string)
      requires Valid()
      modifies this, results, logger
      ensures Valid() && logger.closed == old(logger.closed)
      ensures results.items == old(results.items) + InvalidMessages(index, originalLine)
      ensures logger.file == if logger.inlineMode || logger.closed then old(logger.file)
                             else old(logger.file) + [ErrorLog.ErrorLine(index, originalLine, message)]
      ensures errorsCount == old(errorsCount) + 1 && invalid == old(invalid) + 1
      ensures linesRead == old(linesRead) && submitted == old(submitted) && completed == old(completed)
      ensures slots == old(slots) && valid == old(valid) && rejected == old(rejected)
      ensures history == old(history)
    {
      logger.LogErrorLine(index, originalLine, message);
      errorsCount := errorsCount + 1;
      invalid := invalid + 1;
      results.Put(Skip(index));
    }

    /** ReaderTask.submitFactorialTask: take a slot (when none is free, the oldest
        job finishes first and returns one), then submit; a refused job posts
        SKIP(idx), counts as an error and gives its slot back. While the pool is
        open and the semaphore has no more permits than the pool has places, no
        job is refused. */
    method SubmitFactorialTask(index: int, value: NonNegInt32, now: int) returns (accepted: bool)
      requires Valid()
      modifies this, results, pool, limiter, service
      ensures Valid() && pool.isShutdown == old(pool.isShutdown)
      ensures var waited := old(slots) == 0;
              var before := if waited then old(pool.jobs)[1..] else old(pool.jobs);
        && accepted == (!old(pool.isShutdown) && |before| < pool.capacity)
        && pool.jobs == (if accepted then before + [Job(index, value)] else before)
        && results.items == old(results.items) + (if waited then [JobResult(old(pool.jobs)[0])] else [])
                            + (if accepted then [] else [Skip(index)])
        && completed == old(completed) + (if waited then 1 else 0)
      ensures submitted == old(submitted) + (if accepted then 1 else 0)
      ensures errorsCount == old(errorsCount) + (if accepted then 0 else 1)
      ensures rejected == old(rejected) + (if accepted then 0 else 1)
      ensures valid == old(valid) + 1 && invalid == old(invalid)
      ensures linesRead == old(linesRead) && history == old(history)
      ensures !old(pool.isShutdown) && permits <= pool.capacity ==> accepted
    {
      if slots == 0 {
        RunJob(now);
      }
      slots := slots - 1;
      accepted := pool.Submit(Job(index, value));
      valid := valid + 1;
      if accepted {
        submitted := submitted + 1;
      } else {
        results.Put(Skip(index));
        errorsCount := errorsCount + 1;
        rejected := rejected + 1;
        slots := slots + 1;
      }
    }

    /** ReaderTask.processLine: count the line, then report it as invalid or
        submit its value. */
    method ProcessLine(index: int, originalLine: string, now: int) returns (accepted: bool)
      requires Valid() && Accounted()
      modifies this, results, logger, pool, limiter, service
      ensures Valid() && Accounted()
      ensures pool.isShutdown == old(pool.isShutdown) && logger.closed == old(logger.closed)
      ensures linesRead == old(linesRead) + 1
      ensures history == old(history) + [(index, originalLine)]
      ensures Classify(originalLine).Invalid? ==>
        && !accepted
        && results.items == old(results.items) + InvalidMessages(index, originalLine)
        && logger.file == (if logger.inlineMode || logger.closed then old(logger.file)
                           else old(logger.file) + [ErrorLog.ErrorLine(index, originalLine, Classify(originalLine).reason)])
        && errorsCount == old(errorsCount) + 1
        && submitted == old(submitted) && completed == old(completed) && pool.jobs == old(pool.jobs)
      ensures Classify(originalLine).Number? ==>
        && logger.file == old(logger.file)
        && submitted + errorsCount == old(submitted) + old(errorsCount) + 1
        && (accepted <==> submitted == old(submitted) + 1)
      ensures Classify(originalLine).Number? ==>
        var waited := old(slots) == 0;
        var before := if waited then old(pool.jobs)[1..] else old(pool.jobs);
        && accepted == (!old(pool.isShutdown) && |before| < pool.capacity)
        && pool.jobs == (if accepted then before + [Job(index, Classify(originalLine).value)] else before)
        && results.items == old(results.items) + (if waited then [JobResult(old(pool.jobs)[0])] else [])
                            + (if accepted then [] else [Skip(index)])
        && completed == old(completed) + (if waited then 1 else 0)
    {
      linesRead := linesRead + 1;
      history := history + [(index, originalLine)];
      match Classify(originalLine)
      case Invalid(reason) =>
        HandleInvalidLine(index, originalLine, reason);
        accepted := false;
      case Number(v) =>
        accepted := SubmitFactorialTask(index, v, now);
    }

    /** The inner loop of readWithFollow: the lines of one pass, numbered on from
        `firstIndex`. */
    method ProcessLines(lines: seq<string>, firstIndex: nat, now: int)
      requires Valid() && Accounted()
      modifies this, results, logger, pool, limiter, service
      ensures Valid() && Accounted()
      ensures linesRead == old(linesRead) + |lines|
      ensures history == old(history) + Numbered(lines, firstIndex)
    {
      var j := 0;
      while j < |lines|
        invariant 0 <= j <= |lines|
        invariant Valid() && Accounted()
        invariant linesRead == old(linesRead) + j
        invariant history == old(history) + Numbered(lines[..j], firstIndex)
      {
        var _ := ProcessLine(firstIndex + j, lines[j], now);
        NumberedSnoc(lines, j, firstIndex);
        j := j + 1;
      }
      assert lines[..|lines|] == lines;
    }

    /** One turn of readWithFollow's loop: process the lines the pass read, or
        else react to the file's length (grown, shrunk, or quiet for one more
        poll). */
    method FollowPass(st: FollowState, p: Pass, followIdleMs: int) returns (next: FollowState)
      requires Valid() && Accounted()
      modifies this, results, logger, pool, limiter, service
      ensures Valid() && Accounted()
      ensures next == FollowStep(st, p, followIdleMs)
      ensures linesRead == old(linesRead) + |p.lines|
      ensures history == old(history) + Numbered(p.lines, st.idx)
    {
      if |p.lines| > 0 {
        ProcessLines(p.lines, st.idx, p.now);
        next := FollowState(p.endPos, 0, st.idx + |p.lines|, false);
      } else if p.length > st.pos {
        next := st.(idleMs := 0);
      } else if p.length < st.pos {
        next := st.(pos := 0, idleMs := 0);
      } else {
        var idle := st.idleMs + POLL_MS;
        next := st.(idleMs := idle, stopped := idle >= Max(0, followIdleMs));
      }
    }

    /** ReaderTask.readWithFollow over the passes the file presents: lines get the
        indices 0, 1, 2, ... in reading order, whatever the file does in between,
        and the loop ends as the follow state machine says. */
    method ReadWithFollow(passes: seq<Pass>, followIdleMs: int) returns (st: FollowState)
      requires Valid() && Accounted()
      modifies this, results, logger, pool, limiter, service
      ensures Valid() && Accounted()
      ensures st == Follow(Start(), passes, followIdleMs)
      ensures var lines := ReadLines(Start(), passes, followIdleMs);
        && linesRead == old(linesRead) + |lines|
        && history == old(history) + Numbered(lines, 0)
    {
      st := Start();
      ghost var done: seq<string> := [];
      var i := 0;
      TracksStart(passes, followIdleMs);
      while i < |passes| && !st.stopped
        invariant i <= |passes|
        invariant Valid() && Accounted()
        invariant Tracks(passes, followIdleMs, i, st, done)
        invariant linesRead == old(linesRead) + |done|
        invariant history == old(history) + Numbered(done, 0)
        decreases |passes| - i
      {
        TracksStep(passes, followIdleMs, i, st, done);
        NumberedAppend(done, passes[i].lines);
        st := FollowPass(st, passes[i], followIdleMs);
        done := done + passes[i].lines;
        i := i + 1;
      }
      TracksEnd(passes, followIdleMs, i, st, done);
    }

    /** What the pipeline waits for once the reader is done: every outstanding job
        finishes, so completed catches up with submitted and every slot is back. */
    method FinishJobs(now: int)
      requires Valid()
      modifies this, results, pool, limiter, service
      ensures Valid() && pool.jobs == [] && completed == submitted && slots == permits
      ensures results.items == old(results.items) + JobResults(old(pool.jobs))
      ensures submitted == old(submitted) && errorsCount == old(errorsCount) && linesRead == old(linesRead)
    {
      while pool.jobs != []
        invariant Valid()
        invariant results.items + JobResults(pool.jobs) == old(results.items) + JobResults(old(pool.jobs))
        invariant submitted == old(submitted) && errorsCount == old(errorsCount) && linesRead == old(linesRead)
        decreases |pool.jobs|
      {
        ghost var items := results.items;
        ghost var jobs := pool.jobs;
        assert JobResults(jobs) == [JobResult(jobs[0])] + JobResults(jobs[1..]);
        RunJob(now);
        assert results.items + JobResults(pool.jobs) == items + JobResults(jobs);
      }
    }
  }

  /** The lines paired with consecutive indices from `first`. */
  function Numbered(lines: seq<string>, first: int): (r: seq<(int, string)>)
    ensures |r| == |lines|
  {
    if lines == [] then [] else Numbered(lines[..|lines| - 1], first) + [(first + |lines| - 1, lines[|lines| - 1])]
  }

  /** The k-th pair holds the k-th line and the index first + k. */
  lemma {:induction false} NumberedAt(lines: seq<string>, first: int)
    ensures forall k :: 0 <= k < |lines| ==> Numbered(lines, first)[k] == (first + k, lines[k])
  {
    if lines != [] {
      NumberedAt(lines[..|lines| - 1], first);
    }
  }

  /** Numbering two runs of lines one after the other numbers the second run on
      from the length of the first. */
  lemma {:induction false} NumberedAppend(a: seq<string>, b: seq<string>)
    ensures Numbered(a + b, 0) == Numbered(a, 0) + Numbered(b, |a|)
    decreases |b|
  {
    if b == [] {
      assert a + b == a;
    } else {
      var init := b[..|b| - 1];
      assert (a + b)[..|a + b| - 1] == a + init;
      NumberedAppend(a, init);
    }
  }

  lemma NumberedSnoc(lines: seq<string>, j: nat, first: int)
    requires j < |lines|
    ensures Numbered(lines[..j + 1], first) == Numbered(lines[..j], first) + [(first + j, lines[j])]
  {
    assert lines[..j + 1][..j] == lines[..j];
  }

  /** The RESULT messages of finished jobs, in the order they finish. */
  function JobResults(jobs: seq<Job>): seq<Msg>
  {
    if jobs == [] then []
    else [JobResult(jobs[0])] + JobResults(jobs[1..])
  }

}
