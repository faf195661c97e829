# factorial-pipeline, modelled in Dafny

factorial-pipeline reads integers from an input file, one per line, and writes `n = n!` for
each one to an output file, in input order. The input file may be growing while it is read.
Several threads cooperate:
- a reader thread classifies each line;
- a pool of workers computes factorials, throttled by a rate limiter;
- a single writer reassembles the out-of-order results.

Invalid lines are reported, either in a separate errors file or inline in the output.

This project models the sequential logic of those parts and proves what it promises.

- **Messages** (`messages.dfy`, module `Messages`): the message record with its five kinds
  and its factories. Module `Channel` is the results queue: first in, first out.
- **Writer** (`writer.dfy`): ordered reassembly.
  - Each message is merged into the `pending` map.
  - Then the contiguous prefix starting at `nextToWrite` is flushed and rendered.
  - The pure functions `Merge`, `Flush`, `Step` and `Consume` specify one merge, one flush and
    a whole run. The class `WriterTask` does the same work in place, and its methods are
    proved equal to those functions.
  - The merge preference is a parameter (`Rule`), so every ordering property is proved for
    the preference as written and for the corrected one (see Findings). A `WriterTask` is
    built with its rule: `AsWritten` reproduces the program, and `Intended` is the
    correction.
- **Reader** (`reader.dfy`):
  - line classification: trim, then `Integer.parseInt`, then the sign check;
  - the counters and the semaphore slots on the invalid, accepted and refused paths;
  - the worker pool, with rejection;
  - the follow loop of `readWithFollow`, as a state machine over `pos`, `idleMs` and `idx`.
    The file is given as the sequence of passes the reader observes.
- **FactorialService** (`factorial.dfy`): the precomputed table filled by a loop, the memo
  cache, and `computeFactorial`. Dafny's `nat` plays `BigInteger`.
- **RateLimiter** (`ratelimiter.dfy`): the virtual clock. The clock reading is a parameter.
- **AppConfig** (`config.dfy`): integer properties with range fallback, the defaults, and
  `withPaths`. A `Properties` table is a `map<string, string>`.
- **ErrorLogger** (`errorlog.dfy`): the errors file, as a sequence of lines, and the inline
  route onto the results channel.
- **FactorialPipeline.format** (`pipeline.dfy`): the elapsed-time text `hh:mm:ss.mmm`.
- **Java text helpers** (`javatext.dfy`): `String.trim`, `Integer.parseInt`, decimal rendering
  and `%0Nd` padding. The reader and the configuration share them.

Source paths below are relative to the repository root.

## Model

| member | source | states |
|---|---|---|
| Messages.Value | src/main/java/org/factorial/model/Messages.java:6-8 | `value`: a RESULT with the index, the input as decimal text and the factorial; rawLine and errorMsg are absent. FactoryFields proves that the text reads back as the input. |
| Messages.Raw | src/main/java/org/factorial/model/Messages.java:9-11 | `raw`: a RAW_ERROR with the index and the untouched line; every other component is absent. |
| Messages.Skip | src/main/java/org/factorial/model/Messages.java:12 | `skip`: a SKIP that holds only its index. |
| Messages.Poison | src/main/java/org/factorial/model/Messages.java:13 | `poison`: the POISON sentinel, with index `Integer.MAX_VALUE` and nothing else. |
| Messages.FactoryFields | src/main/java/org/factorial/model/Messages.java:6-16 | `value` gives RESULT with the index, the decimal text of the value (which `parseInt` reads back as the value) and the factorial, with rawLine and errorMsg absent. `raw` sets only the index and rawLine; `skip` only the index; `poison` has index `Integer.MAX_VALUE`. `isPoison` holds for poison only. |
| Messages.ValueEquality | src/main/java/org/factorial/model/Messages.java:6-8 | Two RESULT messages are equal exactly when index, value and factorial agree, because record equality is structural. |
| Channel.MsgQueue.Put | src/main/java/org/factorial/pipeline/FactorialPipeline.java:46 | `put` on the unbounded `LinkedBlockingQueue` appends the message at the tail and changes nothing else. |
| Channel.MsgQueue.Take | src/main/java/org/factorial/io/WriterTask.java:62 | `take` on a non-empty queue returns the head and removes exactly it, so messages leave in the order they were put. |
| JavaText.Trim | src/main/java/org/factorial/io/ReaderTask.java:59 | `String.trim`: drops the leading and the trailing characters ≤ U+0020. TrimShape, TrimEmptyIffAllBlank, TrimIdempotent and TrimStripsPadding prove what the result is. |
| JavaText.TrimShape | src/main/java/org/factorial/io/ReaderTask.java:59 | `String.trim`: the result is the slice that starts after the leading characters ≤ U+0020, only such characters follow it, and its own ends are not blank. |
| JavaText.TrimEmptyIffAllBlank | src/main/java/org/factorial/io/ReaderTask.java:59-60 | The trimmed text is empty exactly when every character of the line is ≤ U+0020. |
| JavaText.TrimIdempotent | src/main/java/org/factorial/io/ReaderTask.java:59 | Trimming twice gives the same as trimming once. |
| JavaText.TrimStripsPadding | src/main/java/org/factorial/config/AppConfig.java:33 | Trim removes exactly the blank padding around a text whose ends are not blank. |
| JavaText.ParseInt | src/main/java/org/factorial/io/ReaderTask.java:62 | `Integer.parseInt`: an optional sign followed by at least one digit, within the int range, and nothing else. Any text it accepts is non-empty and neither starts nor ends with a blank. ParseIntOfIntToString proves that it reads back every int rendering. |
| JavaText.NatToString | src/main/java/org/factorial/model/Messages.java:7 | Decimal rendering: at least one digit, no leading zero, and the digits' value is the number. |
| JavaText.ParseIntOfIntToString | src/main/java/org/factorial/model/Messages.java:7 | `Integer.parseInt` reads back every int that `String.valueOf` writes. |
| JavaText.IntToStringInjective | src/main/java/org/factorial/model/Messages.java:7 | Different ints render to different texts. |
| JavaText.ZeroPadNat | src/main/java/org/factorial/pipeline/FactorialPipeline.java:93 | A `%0Nd` field has max(digits, N) characters, all digits, and it reads back as the number. |
| Writer.Priority | src/main/java/org/factorial/io/WriterTask.java:33-41 | The priority table: RESULT 4, RAW_ERROR 3, ERROR_MSG 2, SKIP 1, POISON 0. Prefer and PreferIntended state what it decides. |
| Writer.Merge | src/main/java/org/factorial/io/WriterTask.java:64 | `pending.merge`: the message goes in under its index. An entry already at that index is replaced by the preferred of the two; every other key is unchanged. StepTracks and LateMessageNeverWritten state its effect on a run. |
| Writer.Prefer | src/main/java/org/factorial/io/WriterTask.java:26-41 | The comparator as written. For two messages with the same index it keeps the one with the LOWER priority number, and the existing one on a tie. It always returns one of its arguments. |
| Writer.PreferIntended | src/main/java/org/factorial/io/WriterTask.java:26-41 | The corrected preference keeps the HIGHER priority number, and the existing one on a tie. |
| Writer.Render | src/main/java/org/factorial/io/WriterTask.java:43-50 | `writeOne`: the line a message produces, or none for SKIP and POISON. RenderFactories states it for every factory. |
| Writer.RenderFactories | src/main/java/org/factorial/io/WriterTask.java:43-50 | RESULT renders as `<value> = <factorial>`, RAW_ERROR as its raw line, ERROR_MSG as its message verbatim; SKIP and POISON write nothing. |
| Writer.LinesAppend | src/main/java/org/factorial/io/WriterTask.java:43-50 | Writing two runs of messages one after the other produces their lines one after the other. |
| Writer.Flush | src/main/java/org/factorial/io/WriterTask.java:14-24 | `flushContiguousPrefix` as a function of the state: it removes and writes entries from the cursor while they are present. FlushSpec and FlushSettles state what it does. |
| Writer.Step | src/main/java/org/factorial/io/WriterTask.java:64-65 | One turn of the run loop for a message other than POISON: merge, then flush. StepTracks states what it keeps. |
| Writer.Consume | src/main/java/org/factorial/io/WriterTask.java:61-66 | The run loop over the delivered messages: a step per message until the first POISON. ConsumeTracks, ConsumeGrows and RunFromEmpty state its result. |
| Writer.FlushSpec | src/main/java/org/factorial/io/WriterTask.java:14-24 | The flush is maximal (nothing is left at the cursor) and the cursor never goes back. It removes exactly the contiguous keys next, next+1, … and writes each removed entry once, in key order. The cursor advances by the number removed, and every other entry is unchanged. |
| Writer.FlushSettles | src/main/java/org/factorial/io/WriterTask.java:14-24 | A flush keeps the ordering invariant: the k-th message written has index k, and each key holds a message with that index. |
| Writer.BeforePoison | src/main/java/org/factorial/io/WriterTask.java:61-63 | The messages the writer handles are a prefix of the delivered messages and contain no POISON. They stop exactly at the first POISON: if anything follows the prefix, it is a POISON. |
| Writer.StepTracks | src/main/java/org/factorial/io/WriterTask.java:61-66 | One merge and flush keeps the run invariant. Everything written or pending was delivered, and a key at or above the cursor is pending exactly when its index has arrived. The cursor and the written prefix only grow. |
| Writer.ConsumeTracks | src/main/java/org/factorial/io/WriterTask.java:61-66 | The same invariant over a whole run, up to the first POISON. |
| Writer.ConsumeGrows | src/main/java/org/factorial/io/WriterTask.java:61-66 | Over a whole run, whatever the messages, the cursor never goes back and everything already written stays at the front of the output. |
| Writer.RunFromEmpty | src/main/java/org/factorial/io/WriterTask.java:52-66 | From an empty start, messages are written in ascending index order 0, 1, …, each at most once, and each was delivered before POISON. Every index below the cursor arrived; nothing waits at the cursor; a key above it is pending exactly when its index arrived. |
| Writer.GapBlocks | src/main/java/org/factorial/io/WriterTask.java:18-21 | An index that never arrives stops the output there: the cursor never passes it, so entries waiting behind the gap are never written. |
| Writer.CompleteWhenAllArrive | src/main/java/org/factorial/io/WriterTask.java:61-66 | When every index below n arrives before POISON, all of them are written. |
| Writer.LateMessageNeverWritten | src/main/java/org/factorial/io/WriterTask.java:18-21 | A message for an index below the cursor is stored in `pending` and nothing is written. |
| Writer.RenderFour | src/main/java/org/factorial/io/WriterTask.java:45 | `value(0, 4, 24)` renders as `4 = 24`. |
| Writer.InlineErrorLostBehindGap | src/main/java/org/factorial/io/WriterTask.java:26-31 | As written, the inline trace RAW(1,"y"), SKIP(1), RESULT(0,4,24), POISON outputs only `4 = 24`. |
| Writer.InlineErrorKeptWhenIntended | src/main/java/org/factorial/io/WriterTask.java:26-31 | With the corrected preference, the same trace outputs `4 = 24` then `y`. |
| Writer.WriterTask.constructor | src/main/java/org/factorial/io/WriterTask.java:59-60 | Empty `pending`, cursor 0, no output, and the given merge rule. |
| Writer.WriterTask.WriteOne | src/main/java/org/factorial/io/WriterTask.java:43-50 | Appends the message's rendered line, if any, to the output. |
| Writer.WriterTask.FlushContiguousPrefix | src/main/java/org/factorial/io/WriterTask.java:14-24 | The in-place loop leaves exactly the state `Flush` describes, and the output is the rendering of everything written. |
| Writer.WriterTask.Handle | src/main/java/org/factorial/io/WriterTask.java:64-65 | One merge and flush in place equals `Step` under the task's rule, and it keeps the ordering invariant. |
| Writer.WriterTask.Run | src/main/java/org/factorial/io/WriterTask.java:61-66 | The run loop ends in the state `Consume` gives for the delivered messages. It takes exactly the messages up to and including the first POISON. |
| Reader.Classify | src/main/java/org/factorial/io/ReaderTask.java:57-68 | `processLine`'s decision, in its order: blank, not an int, negative, valid. ClassifyNumber, ClassifyBlank and ClassifyQuotes state each outcome as an if-and-only-if. |
| Reader.ClassifyNumber | src/main/java/org/factorial/io/ReaderTask.java:59-64 | A line is valid with value v exactly when its trimmed text parses as the int v and v ≥ 0. |
| Reader.ClassifyBlank | src/main/java/org/factorial/io/ReaderTask.java:59-60 | The reason "empty/whitespace line" is given exactly to lines made only of characters ≤ U+0020. |
| Reader.ClassifyQuotes | src/main/java/org/factorial/io/ReaderTask.java:62-66 | The reason "not a valid integer (<trimmed>)" is given exactly when the trimmed text is not empty and `parseInt` rejects it. The reason "negative number not allowed (<trimmed>)" is given exactly when it parses as an int below zero. |
| Reader.ClassifyPadded | src/main/java/org/factorial/io/ReaderTask.java:59-64 | A padded int classifies as itself when it is not negative. A padded negative int gets the negative reason, quoting the text without the padding. |
| Reader.ClassifySignedDigit | src/main/java/org/factorial/io/ReaderTask.java:62 | A '+' before any digit, or '-' before 0, is a valid line whose value is that digit. |
| Reader.ClassifySigned | src/main/java/org/factorial/io/ReaderTask.java:62 | "-0" is the valid value 0 and "+7" the valid value 7. |
| Reader.WorkerPool.Submit | src/main/java/org/factorial/io/ReaderTask.java:80 | A submission is refused once the pool is shut down or all its threads and queue places are taken; otherwise it is queued last. |
| Reader.WorkerPool.TakeOldest | src/main/java/org/factorial/io/ReaderTask.java:80-91 | A worker takes the oldest queued job and removes exactly it. Whether the pool is shut down is unchanged. |
| Reader.WorkerPool.Shutdown | src/main/java/org/factorial/pipeline/FactorialPipeline.java:66 | `shutdown` refuses every later submission and keeps the queued jobs. |
| Reader.FollowStep | src/main/java/org/factorial/io/ReaderTask.java:42-53 | One turn of the loop. Lines read move `pos` to where reading ended, add them to `idx` and reset the idle time. A grown file resets the idle time, and a shrunk one also moves `pos` back to 0. Otherwise the idle time grows by 200 ms, and the reader stops once it reaches max(0, followIdleMs). FollowCountsLines, QuietPolls and QuietFileStops state what it does over many turns. |
| Reader.FollowCountsLines | src/main/java/org/factorial/io/ReaderTask.java:40-51 | The index counts every line read, and it is never reset, even when the file shrinks and `pos` goes back to 0. |
| Reader.StopPolls | src/main/java/org/factorial/io/ReaderTask.java:52 | The number of quiet polls before stopping is max(1, ⌈max(0, followIdleMs)/200⌉). |
| Reader.QuietPolls | src/main/java/org/factorial/io/ReaderTask.java:47-52 | During an idle spell each quiet poll adds 200 ms. The reader stops exactly when the poll count reaches StopPolls, and `pos` and `idx` stay put. |
| Reader.QuietFileStops | src/main/java/org/factorial/io/ReaderTask.java:47-52 | A file that stays quiet stops the reader after exactly StopPolls polls, at least one. |
| Reader.ReaderTask.constructor | src/main/java/org/factorial/io/ReaderTask.java:15-28 | All counters start at 0 and every slot is free. |
| Reader.ReaderTask.RunJob | src/main/java/org/factorial/io/ReaderTask.java:80-91 | A job takes a limiter permit, posts RESULT(idx, v, v!), increments `completed` and releases its slot. |
| Reader.ReaderTask.HandleInvalidLine | src/main/java/org/factorial/io/ReaderTask.java:70-75 | The logger gets the index, the untrimmed line and the reason. `errorsCount` goes up by one. The results channel gets exactly one SKIP(idx), after the RAW_ERROR in inline mode. |
| Reader.ReaderTask.SubmitFactorialTask | src/main/java/org/factorial/io/ReaderTask.java:77-98 | It takes a slot; when none is free, the oldest job finishes first. If the job is accepted, it is queued and `submitted` goes up by one. If it is refused, SKIP(idx) is posted, `errorsCount` goes up by one and the slot is given back. An open pool with no more permits than places never refuses. |
| Reader.ReaderTask.ProcessLine | src/main/java/org/factorial/io/ReaderTask.java:57-68 | `linesRead` goes up by exactly one. An invalid line takes the error path with its classification's reason. A valid line takes a slot; when none is free, the oldest job finishes and posts its RESULT first. The line's job is then queued, or SKIP(idx) is posted if the pool refuses it. `completed` counts the job that finished, and the totals linesRead = invalid + valid, errorsCount = invalid + rejected and submitted = valid − rejected are kept. |
| Reader.ReaderTask.ProcessLines | src/main/java/org/factorial/io/ReaderTask.java:44-46 | The lines of one pass are processed in order with consecutive indices. |
| Reader.ReaderTask.FollowPass | src/main/java/org/factorial/io/ReaderTask.java:42-53 | One turn of the loop ends in the state `FollowStep` gives. Its lines are processed with consecutive indices from `idx`. |
| Reader.ReaderTask.ReadWithFollow | src/main/java/org/factorial/io/ReaderTask.java:38-55 | The loop ends in the state the follow state machine gives. The history gains exactly the lines read, numbered 0, 1, 2, … in reading order, and the counter totals hold. |
| Reader.NumberedAt | src/main/java/org/factorial/io/ReaderTask.java:45 | Numbering pairs the k-th line with index first + k. |
| Reader.ReaderTask.FinishJobs | src/main/java/org/factorial/io/ReaderTask.java:80-91 | Once all outstanding jobs finish, `completed` equals `submitted`, every slot is back, and their RESULTs are posted in order. |
| Factorial.ComputeFactorialIsFact | src/main/java/org/factorial/compute/FactorialService.java:43-48 | The product 1·2·…·n is n! for n ≥ 0, and 1 for every n ≤ 1. |
| Factorial.FactPositive | src/main/java/org/factorial/compute/FactorialService.java:36-40 | n! ≥ 1. |
| Factorial.FactIncreasing | src/main/java/org/factorial/compute/FactorialService.java:36-40 | factorial(i) > factorial(i−1) for i ≥ 2. |
| Factorial.FactorialService.constructor | src/main/java/org/factorial/compute/FactorialService.java:14-33 | The table has smallMax+1 entries with precomputed[i] = i!. The shared cache keeps what earlier instances left in it and gains 0 ↦ 1, and 1 ↦ 1 when smallMax ≥ 1, so every entry k still holds k!. |
| Factorial.FactorialService.Factorial | src/main/java/org/factorial/compute/FactorialService.java:36-40 | n! for every n ≥ 0, from the table or the cache. Negative n fails with "Negative numbers are not supported". The cache gains n only on the first call above smallMax, and every cache entry k holds k!. |
| Limiter.Interval | src/main/java/org/factorial/compute/RateLimiter.java:15 | 10^9 / max(1, rate): a full second for a rate ≤ 1, and at least 1 ns for any rate ≤ 10^9. |
| Limiter.Target | src/main/java/org/factorial/compute/RateLimiter.java:24 | The grant instant is the later of the schedule and the clock. |
| Limiter.Wait | src/main/java/org/factorial/compute/RateLimiter.java:27-28 | The wait is never negative, and it is zero exactly when the schedule is not ahead of the clock. |
| Limiter.GrantsSpaced | src/main/java/org/factorial/compute/RateLimiter.java:20-32 | Whatever the clock readings, the i-th and j-th grants are at least (j−i) intervals apart. |
| Limiter.GrantsSpan | src/main/java/org/factorial/compute/RateLimiter.java:20-32 | k acquires span at least (k−1) intervals. |
| Limiter.RateLimiter.constructor | src/main/java/org/factorial/compute/RateLimiter.java:14-17 | The interval is `Interval(rate)` and the schedule starts at the construction-time clock. |
| Limiter.RateLimiter.Acquire | src/main/java/org/factorial/compute/RateLimiter.java:20-32 | It grants at max(nextFree, now), waits the difference, and moves the schedule one interval past the grant. The schedule strictly grows whenever the interval is positive. |
| Limiter.RateLimiter.Close | src/main/java/org/factorial/compute/RateLimiter.java:35 | Changes nothing. |
| Limiter.RateLimiter.Shutdown | src/main/java/org/factorial/compute/RateLimiter.java:36 | Changes nothing. |
| Config.ParseIntProperty | src/main/java/org/factorial/config/AppConfig.java:31-38 | The result is the default or a value within [min, max]. |
| Config.ParseIntPropertyPadded | src/main/java/org/factorial/config/AppConfig.java:33-34 | A property holding an int, with blank padding, yields that int when it is in [min, max] inclusive, and the default otherwise. |
| Config.ParseIntPropertyAbsent | src/main/java/org/factorial/config/AppConfig.java:33 | A missing key yields the default. |
| Config.ParseIntPropertyOrigin | src/main/java/org/factorial/config/AppConfig.java:31-38 | A non-default result only comes from a present key whose trimmed text parses as that in-range int. So unparsable or blank values fall back to the default. |
| Config.FromProperties | src/main/java/org/factorial/config/AppConfig.java:22-29 | ratePerSecond ∈ [1, 100000], factorialSmallMax ∈ [0, 100000] and progressIntervalMs ∈ [50, 60000], whatever the properties. Each path is its property, or input.txt, output.txt or errors.txt. |
| Config.LoadOrDefault | src/main/java/org/factorial/config/AppConfig.java:40-46 | Whatever was loaded, the settings are in range. |
| Config.NumericDefaults | src/main/java/org/factorial/config/AppConfig.java:22-29 | Without the three numeric keys, the settings are 1000 ms, 100 per second and 20. |
| Config.DefaultsWhenNoFile | src/main/java/org/factorial/config/AppConfig.java:22-29 | With no file the settings are input.txt, output.txt, errors.txt, 1000 ms, 100 per second and 20. |
| Config.WithPathsSettings | src/main/java/org/factorial/config/AppConfig.java:48-54 | `withPaths` keeps the three paths exactly and takes 100, 20 and 1000 for the numeric settings. |
| ErrorLog.ErrorLine | src/main/java/org/factorial/io/ErrorLogger.java:55 | The file-mode diagnostic `Line <index+1>: [<line>] -> <explanation>`. LineNumberOfErrorLine proves that the line number reads back from it. |
| ErrorLog.LineNumberOfErrorLine | src/main/java/org/factorial/io/ErrorLogger.java:55 | The diagnostic starts with `Line <index+1>`, and the 1-based number reads back from the text. |
| ErrorLog.ErrorLogger.ToFile | src/main/java/org/factorial/io/ErrorLogger.java:25-34 | File mode, with an empty, open errors file. |
| ErrorLog.ErrorLogger.Inline | src/main/java/org/factorial/io/ErrorLogger.java:36-38 | Inline mode on the given channel, with no file output. |
| ErrorLog.ErrorLogger.Log | src/main/java/org/factorial/io/ErrorLogger.java:40-48 | In file mode it appends exactly one line (none after close); in inline mode nothing. It never touches the channel. |
| ErrorLog.ErrorLogger.LogErrorLine | src/main/java/org/factorial/io/ErrorLogger.java:50-62 | Inline: exactly one RAW_ERROR(index, line) is enqueued after what was there, the explanation is dropped, and the file is unchanged. File mode: exactly one line `Line <index+1>: [<line>] -> <explanation>` is appended. |
| ErrorLog.ErrorLogger.Close | src/main/java/org/factorial/io/ErrorLogger.java:64-71 | The file keeps everything written before. In file mode later writes are dropped; in inline mode nothing changes. |
| Pipeline.Split | src/main/java/org/factorial/pipeline/FactorialPipeline.java:88-92 | h·3600000 + m·60000 + s·1000 + ms equals the input, with m < 60, s < 60 and ms < 1000. |
| Pipeline.SplitUnique | src/main/java/org/factorial/pipeline/FactorialPipeline.java:88-92 | Those conditions determine the split: it is the only in-range reading of the total. |
| Pipeline.Format | src/main/java/org/factorial/pipeline/FactorialPipeline.java:88-94 | `String.format("%02d:%02d:%02d.%03d", h, m, s, ms)` of the split duration. FormatReadsBack proves its layout and that it reads back. |
| Pipeline.FormatReadsBack | src/main/java/org/factorial/pipeline/FactorialPipeline.java:93 | The text is `hh:mm:ss.mmm`, with at least two hour digits, exactly two minute and second digits and three millisecond digits. Reading the four fields back gives the milliseconds. |
| Pipeline.FormatZero | src/main/java/org/factorial/pipeline/FactorialPipeline.java:88-93 | 0 ms renders as `00:00:00.000`. |
| Pipeline.FormatMixed | src/main/java/org/factorial/pipeline/FactorialPipeline.java:88-93 | 3723004 ms renders as `01:02:03.004`. |

## Left out

- Threads and blocking are modelled as a single caller:
  - a worker job runs when the reader waits for a slot (`SubmitFactorialTask`) or when the pool is drained (`FinishJobs`);
  - `BlockingQueue.take` on an empty queue is not modelled: `WriterTask.Run` stops when the channel runs dry;
  - semaphore fairness, the compare-and-set retry under contention in `RateLimiter.acquire`, and `ConcurrentHashMap.computeIfAbsent` races are not modelled.
- Limiter.RateLimiter.Acquire: the CAS retry loop is one step, because a single caller always succeeds on the first try. `parkNanos` is represented by the returned wait.
- Interruption: `InterruptedException` paths are not modelled. These include a job interrupted before it posts its RESULT, and the reader's `run` wrapper that logs I/O errors.
- File and stream I/O are sequences:
  - the output and errors files are sequences of lines;
  - `RandomAccessFile.readLine` byte and terminator semantics, and the input file itself, are replaced by the passes the reader observes (`Pass`);
  - flushing, `Files.createDirectories` and the `System.err` mirroring are left out.
- Reader.ReaderTask.ReadWithFollow: the loop also ends when the given passes run out, because a real file can be followed forever.
- Config.LoadOrDefault: `Properties.load` is not modelled. The loaded table is a parameter, and a partial load after an I/O error is not represented.
- Config.FromProperties: paths are kept as text, without `Paths.get` normalisation.
- Fixed-width integers:
  - `long` overflow in the rate limiter;
  - `int` overflow of the line index, of `index + 1` in the diagnostic, and of the atomic counters.
  All of these are unbounded integers here.
- JavaText.ParseInt: only ASCII digits are accepted. `Integer.parseInt` also accepts other Unicode decimal digits.
- Writer.Render: a RAW_ERROR or ERROR_MSG with a null text renders as "null". Java would throw a NullPointerException in `BufferedWriter.write`. No factory creates such a message.
- Factorial.FactorialService: the table and `smallMax` are static in the source, so each construction replaces them for every instance. The model gives each instance its own table. The static cache is passed in as `priorCache`.
- Reader.ReaderTask.constructor: the semaphore has at least one permit. With zero permits the reader would block forever, and the pipeline's executor refuses a pool size of zero anyway.
- Pipeline.Split: negative durations are not modelled (the elapsed time is never negative).
- `FactorialPipeline.run`, the executor setup, `ProgressTask`, `Main` and the console output are orchestration and are not part of this model.

## Findings

| source | as written | input that shows it | evidently intended | confidence | as-written member | corrected member |
|---|---|---|---|---|---|---|
| src/main/java/org/factorial/io/WriterTask.java:26-31 | `comparingInt(priority).reversed()` with `compare(a, b) >= 0 ? a : b` keeps the message with the LOWER priority number. In inline mode the reader posts RAW_ERROR(i), then SKIP(i) (ErrorLogger.java:53, ReaderTask.java:74), so the SKIP replaces the raw line whenever index i waits behind a gap. | RAW(1,"y"), SKIP(1), RESULT(0,4,24), POISON: the output is `4 = 24` only | keep the higher priority, as the table RESULT 4 > RAW_ERROR 3 > … > POISON 0 says, so the output is `4 = 24`, `y` | not executed | Writer.InlineErrorLostBehindGap | Writer.PreferIntended |
