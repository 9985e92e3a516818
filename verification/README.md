# Formal model of the autoscan engine and the stress verifier

A Dafny model of four parts of the repository whose claims span whole runs:

- **The autoscan engine** (`auto-optimizer`): the step controller that searches the highest stable
  frequency offset of a voltage point by exponential steps and bisection, the JSONL log that lets a
  scan survive a crash, the point loop with its sessions, and the two interpolators that turn search
  results into a curve.
- **The ride-on-load verifier** (`cli-stressor-opencl`, with the generators of
  `cli-stressor-cuda-rs`): the tiled matrix product, its sampled checker, the concurrent compare
  kernel, the injection self-test and the splitmix64 oracle.
- **The BIT table parser** (`cli/src/vbios.rs`), against a table emitter.
- **The G-Helper config guard** (`cli-common/src/ghelper_guard.rs`): backup, temporary file, rename.

`dafny verify dfyconfig.toml` checks everything.

| file | what it holds |
|---|---|
| `StepSearch.dfy` | the controller, and the short and long phase of `scan_strategy.rs` |
| `BoostPhases.dfy` | the phases the scanner runs, and its loop over the points |
| `Resume.dfy` | the log's events and the reading a new session makes of them |
| `ScanLogFile.dfy` | the log as bytes: writer, reader, crashes between two bytes |
| `Scanner.dfy` | sessions, crashes between events and resumption as a state machine |
| `TornLog.dfy`, `TornScan.dfy` | the same on real bytes, with crashes inside any write |
| `WholeWrites.dfy` | the two state machines differ in nothing but the torn writes |
| `Overshoot.dfy`, `TornOvershoot.dfy` | two runs after which a session cannot begin as it should |
| `PlainCodec.dfy` | a record text that keeps every law assumed of the real one |
| `CurveExport.dfy`, `Profile.dfy` | the endpoint and the key-point interpolation |
| `Gemm.dfy` | the tiled kernel as interleaved work-items, and its checker |
| `Words.dfy`, `Compare.dfy`, `Engine.dfy` | bit tricks, the compare kernel, the host side |
| `Hash.dfy`, `RandomFill.dfy` | splitmix64, the pattern oracle, the parallel fills |
| `Vbios.dfy`, `Guard.dfy` | the BIT parser and the config guard |
| `Arithmetic.dfy`, `Options.dfy` | shared helpers |

Code that changes state is modelled by classes, loops and arrays proved against specification
functions; what the source promises is proved about those functions. Concurrent code is a state
machine whose runs interleave single steps in any order, and a method that schedules such a run to
its end. A stress test is an arbitrary oracle, memory between a fill and a compare is an arbitrary
function, and file operations that may fail are parameters.

## What the proofs show about the code

Properties that hold only under a condition, with the exact condition:

- The search loops of `new` and `init_from_resume` end if and only if one step fits below the limit;
  otherwise the unsigned exponent underflows (`StartLoopStopsIff`, `ResumeStopsIff`).
- For a session that starts from a log that means: a success without a failure lies at or above the
  default limit and backing off leaves no step below it, or the one failure is the default start and
  the elastic margin is a single step (`StartLoopUnderflowsIff`). `StartLoopUnderflows` is a run that
  gets there: its second point passes a test above the default limit before the crash.
- A resuming session skips the short phase of its first point if and only if at most one step was left
  between success and failure, or two steps do not fit under its limit (`ResumedSkipsIff`).
- A short phase ends on a device if and only if the device passes some offset
  (`StepSearch.ShortPhaseEndsIff`, `BoostPhases.FlightEndsIff`).
- The scanner's short phase raises the progress before every test. Some verdicts make its exponent
  underflow if and only if the step exponent is below three, or the start is past convergence with a
  step still to go (`UnderflowIff`). For a fresh controller the second case means that two steps do not
  fit below the limit (`NewStartUnderflowsIff`). The shipped exponents are three and four
  (`core/src/gpu_type.rs:352-619`).
- With an exponent of at least three and a start-up loop that ends, the first short phase of a session
  can underflow if and only if the session does not count as resumed, its recovered failure (or the
  default limit) lies below its recovered success (or the default start), and two steps do not fit
  between the backed-off success and the default limit (`FirstShortPhaseUnderflowsIff`, for every log).
  With crashes between events no session begins there (`FirstShortPhaseNeverUnderflows`). With a crash
  inside the write of a mode record one does, also with shipped parameters
  (`TornOvershoot.FirstShortPhaseUnderflows`): the torn record swallows the next mode record, so that
  session's success is read back without a mode. The log then has errors, which its reader accepted.
- A session started after a crash at offset `d` searches strictly below `d` if and only if a passed
  core test was logged in the session or the default start lies below `d` (`ResumesBelowCrash`). With
  a default start equal to `d` it resumes exactly at `d` (`ResumesAtCrashOffset`).
- With every lattice index up to one stride past the upper end plausible, a session finds a point to go
  on from if and only if a test or a finished point was logged since the last mode record and the last
  completed scan, with crashes between events and after any byte (`KeepsPlaceIff` of `Scanner` and of
  `TornScan`). A crash right after the mode record is one case in which it does not
  (`CrashAfterModeRestarts`).
- A record appended to a torn last line is read back if and only if the torn bytes are blank
  (`TornTailSwallows`). So every crash inside an append costs the next session's first record, and the
  torn record with it even where that one could still be read before (`CrashCostsNextRecord`).
- An interpolated delta stays below the larger of its two key deltas if and only if that one is not
  negative: below one step the code answers zero (`NeverExceedsKeysIff`).
- `parse_bit` inverts the emitter if and only if no longer chain starts between the table's terminator
  and the end of the 64-byte window (`ParserInvertsEmitterIff`); `DecoyWins` is an image on which it
  does not.
- In a buffer of up to 2^32 words the 32-bit error counter reads zero for a faulty buffer if and only
  if exactly 2^32 words are all wrong (`CounterIsZeroIff`).

Three more facts a reader may not expect: while tests pass, the search of `scan_strategy.rs` climbs in
doubling strides and the one the scanner runs in equal ones (`PassesClimbDoubling`,
`PassesClimbEvenly`); a completion truncates away whatever was written after its
pending record (`CompletionReplaces`), and neighbouring chunks of `fill_random_bytes` carry the same
stream one word apart (`ChunksOverlap`).

The lost records of a torn line do not cost coverage. In every run of sessions that die after any byte
of any write, no lattice point is left behind (`TornScan.NoPointLeftBehind`), as long as the upper end
is a plausible index of at most 255 (`auto-optimizer/src/scan_log.rs:550-552`). The record text enters
only through laws that JSON objects keep: a record is one line that decodes, no text cut off it or with
other text before it decodes, and a half-overwritten result decodes to one of the two results or not at
all. `PlainCodec.LawsCanBeKept` shows that these laws do not contradict each other.

Where a comment and the code differ the code is followed: the comments on `StepController` describe a
"+1 at the top of the loop" that `run_short_phase` does not perform and the scanner's own phase does,
and `apply_50_series_failure_penalty` has an empty body.

## Model

| member | source | states |
|---|---|---|
| StepSearch.RunKeeps | auto-optimizer/src/scan_strategy.rs:554-625 | for any device and after any number of tests: progress below exponent while running; before the first failure the limit is untouched and the offset never falls; after it the gap is one of two power-of-two strides and the limit is the last failed offset; failures strictly fall; every probe is below the ceiling |
| StepSearch.ShortPhaseCloses | auto-optimizer/src/scan_strategy.rs:262-312 | a phase that saw a failure ends exactly one step below the last failed offset, and the offset two steps below it is a probe that passed; one that saw none ends within a step of the limit |
| StepSearch.GapIsPowerOfTwo | auto-optimizer/src/scan_strategy.rs:262-312 | after a failure, while the loop runs, the gap is step times a positive power of two, so halving leaves no remainder |
| StepSearch.PassesClimbDoubling | auto-optimizer/src/scan_strategy.rs:262-291 | while tests pass and there is room each stride is twice the one before |
| StepSearch.FailuresFallEvenly | auto-optimizer/src/scan_strategy.rs:303-312 | in a row failures fall in equal strides, a power of two for a progress of at most three |
| StepSearch.ProbesStayBelowCeiling | auto-optimizer/src/scan_strategy.rs:578-614 | every probe is at most the start or below limit + step * (2^exp - 1), and each failure lies strictly below every earlier one |
| StepSearch.RunStaysAboveFloor | auto-optimizer/src/scan_strategy.rs:303-312 | if all offsets up to a safe one pass, no probe is below min(start, safe + 1 - step * 2^(exp+1)), and the limit stays above the safe offset |
| StepSearch.ShortPhaseFitsInI32 | auto-optimizer/src/scan_strategy.rs:262-312 | within stated bounds on start, limit and safe offset every value a test computes fits the 32-bit integers of the source |
| StepSearch.ShortStepShrinks | auto-optimizer/src/scan_strategy.rs:578-614 | the lexicographic measure by which each test of a phase brings it nearer its end |
| StepSearch.AlwaysFailingNeverEnds | auto-optimizer/src/scan_strategy.rs:585-598 | a device that fails every test keeps the loop running after any number of tests |
| StepSearch.ShortPhaseEndsIff | auto-optimizer/src/scan_strategy.rs:578-614 | on a downward-closed device an unconverged short phase ends if and only if the device passes some offset |
| StepSearch.PhasesFindThreshold | auto-optimizer/src/scan_strategy.rs:554-683 | with sharp thresholds tLong <= tShort and a failed short test, the long phase ends with tLong - d < f <= tLong |
| StepSearch.LongPhaseStopsClose | auto-optimizer/src/scan_strategy.rs:635-683 | a long phase that met a failure ends less than one long step below the threshold |
| StepSearch.LongPhaseFindsThreshold | auto-optimizer/src/scan_strategy.rs:635-683 | from one step below a failed offset the long phase ends with tLong - d < f <= tLong |
| StepSearch.FirstFitIsLeast | auto-optimizer/src/scan_strategy.rs:176-178 | the start-up loop picks the least progress whose stride stays below the limit |
| StepSearch.StartLoopStopsIff | auto-optimizer/src/scan_strategy.rs:171-178 | such a progress exists if and only if one step fits below the limit |
| StepSearch.ResumeStopsIff | auto-optimizer/src/scan_strategy.rs:194-207 | the loop of a resume ends if and only if the backed-off success plus one step is below the failure |
| StepSearch.ResumeLimitIs | auto-optimizer/src/scan_strategy.rs:202-202 | the limit of a resume is the failure, raised as far as the backed-off success asks for and the elastic margin allows |
| StepSearch.ResumeStartsBelowFailure | auto-optimizer/src/scan_strategy.rs:194-222 | success below failure and elasticity at least one step: the limit is the failed offset, the search starts below it with the least progress that fits, and the short phase is skipped exactly when at most one step was left, and then at the success itself |
| StepSearch.StepController.New | auto-optimizer/src/scan_strategy.rs:171-186 | the controller starts at the initial offset with the least fitting progress |
| StepSearch.StepController.InitFromResume | auto-optimizer/src/scan_strategy.rs:194-222 | the controller equals the resumed search, converged case included |
| StepSearch.StepController.OnTestPassed | auto-optimizer/src/scan_strategy.rs:262-291 | the four fields and the go-on flag are those of the passed step |
| StepSearch.StepController.OnTestFailed | auto-optimizer/src/scan_strategy.rs:303-312 | progress clamped to three, the tested offset becomes the limit, the offset falls by the returned stride |
| StepSearch.StepController.ApplyLongFailureStep | auto-optimizer/src/scan_strategy.rs:322-330 | one step down, two on 50-series; nothing else changes |
| StepSearch.StepController.RunShortPhase | auto-optimizer/src/scan_strategy.rs:554-625 | the loop ends, its callbacks are the probes of some complete run with the device's verdicts in order, and progress is reset; the skipped cases make no call |
| StepSearch.StepController.RunLongPhase | auto-optimizer/src/scan_strategy.rs:635-683 | the loop ends; the tests step down by the long step, all failed but the last, and the offset is the one that passed |
| StepSearch.RunPhases | auto-optimizer/src/scan_strategy.rs:554-683 | both phases on a device with sharp thresholds: the result passes, is within one long step of the best offset if any test failed, and within one step of the limit if tests ran and none failed |
| BoostPhases.FlyKeeps | auto-optimizer/src/oc_scanner/phases.rs:481-590 | for any device and after any number of tests: no underflow, the limit is the last failed offset, the gap after a failure is one of two power-of-two strides, failures strictly fall, every probe is below the ceiling |
| BoostPhases.UnderflowIff | auto-optimizer/src/oc_scanner/phases.rs:493-493 | some verdicts make the exponent underflow if and only if the step exponent is below three or the start is past convergence with a step to go |
| BoostPhases.NewStartUnderflowsIff | auto-optimizer/src/oc_scanner.rs:332-336 | for a controller from `new`: if and only if the exponent is below three or two steps do not fit below the limit |
| BoostPhases.ResumedStartIsStartable | auto-optimizer/src/oc_scanner.rs:337-345 | an unconverged resumed start cannot underflow exactly for exponents of at least three |
| BoostPhases.ResumedSkipsIff | auto-optimizer/src/oc_scanner/phases.rs:466-479 | a resuming session skips its first short phase if and only if at most one step was left, or two steps do not fit between the backed-off success and the limit |
| BoostPhases.NewSkipsIff | auto-optimizer/src/oc_scanner/phases.rs:466-479 | with a controller from `new` it does if and only if four steps do not fit below the limit |
| BoostPhases.FlightCloses | auto-optimizer/src/oc_scanner/phases.rs:540-590 | a phase that saw a failure ends exactly one step below the last failed offset, with the probe two steps below it passed; one that saw none ends within a step of the limit |
| BoostPhases.FlightGapIsPowerOfTwo | auto-optimizer/src/oc_scanner/phases.rs:540-590 | after a failure, while the loop runs, the gap is step times a positive power of two |
| BoostPhases.PassesClimbEvenly | auto-optimizer/src/oc_scanner/phases.rs:493-581 | while tests pass and there is room the search climbs in equal strides of step * 2^(exp - progress) |
| BoostPhases.FailuresFallInStrides | auto-optimizer/src/oc_scanner/phases.rs:493-565 | the n-th failure in a row goes down by step * 2^(exp + 1 - min(progress + n, 3)) and is the limit from then on |
| BoostPhases.TestsStayWithin | auto-optimizer/src/oc_scanner/phases.rs:481-590 | no probe lies below the start or one full stride below the safe offsets, and none more than half a stride above the limit |
| BoostPhases.FlightEndsIff | auto-optimizer/src/oc_scanner/phases.rs:481-590 | on a downward-closed device the phase ends if and only if the device passes some offset |
| BoostPhases.FlightFitsInI32 | auto-optimizer/src/oc_scanner/phases.rs:540-590 | within stated bounds every value a test computes fits the 32-bit integers of the source |
| BoostPhases.TakeVerdict | auto-optimizer/src/oc_scanner/phases.rs:493-590 | one round of the loop raises the progress and takes the passed or failed step |
| BoostPhases.RunShortPhase | auto-optimizer/src/oc_scanner/phases.rs:454-593 | the loop ends, its tests are those of some complete run with the device's verdicts in order, progress is reset; a resuming session skips a converged search and no other does |
| BoostPhases.RunLongPhase | auto-optimizer/src/oc_scanner/phases.rs:596-708 | the loop ends; the tests step down by the long step, all failed but the last, with test codes counting on from the short phase |
| BoostPhases.SettlePoint | auto-optimizer/src/oc_scanner.rs:468-494 | the tests at one point of a device with sharp thresholds are a whole short phase from the controller it is given, unless that is skipped, and the long phase from where it ended; the result passes, is within one long step of the best offset if any test failed, and within one step of the limit if the search ran and none failed |
| BoostPhases.SearchBegins | auto-optimizer/src/oc_scanner.rs:468-494 | the first test of a point is made at the offset its search starts from, and while nothing fails its limit stays |
| BoostPhases.SettlePoints | auto-optimizer/src/oc_scanner.rs:407-563 | over the whole point loop every point after the first settles so, and the first unless it starts converged; each later search starts one elastic margin below the result before it, its first test is made there, and unless a test fails it ends within one step of the limit before it raised by that margin |
| Resume.ScanBackIsRawReading | auto-optimizer/src/scan_log.rs:452-521 | the backward loop collects exactly the declarative reading: last counted success, last counted failure, last usable point and mode of the session, or nothing for a closed scan |
| Resume.BreakpointFromEntries | auto-optimizer/src/scan_log.rs:436-544 | the loop returns the declarative reading, whose parts the next five rows say |
| Resume.RecoveredOffsetsAre | auto-optimizer/src/scan_log.rs:523-537 | behind a finished point the last counted success and failure move away from each other by the elastic margin, elsewhere they are as logged; a success that would then not lie below the failure is put one step below it |
| Resume.RecoveredModeIs | auto-optimizer/src/scan_log.rs:453-472 | an open session hands on whether its own mode record was the ultrafast one, a closed one nothing at all |
| Resume.RecoveredPointIsPlausible | auto-optimizer/src/scan_log.rs:550-552 | no point above 255 is recovered, after a finished point either |
| Resume.LegacyReadsAsCore | auto-optimizer/src/scan_log.rs:473-500 | entries of old hardware are read like those of the core clock |
| Resume.PassedOverLeavesNoTrace | auto-optimizer/src/scan_log.rs:486-500 | a memory-clock test, and a pending record with a completed one of its code behind it, leave no trace in the reading |
| Resume.SuccessBelowFailure | auto-optimizer/src/scan_log.rs:533-537 | a recovered success is strictly below a recovered failure |
| Resume.DependsOnlyOnSession | auto-optimizer/src/scan_log.rs:464-472 | nothing before the last mode record influences the reading |
| Resume.UnfinishedTestIsFailure | auto-optimizer/src/scan_log.rs:486-515 | a log ending in a core test without result yields that test's offset as the failure, a smaller success if any, and its point |
| Resume.FinishedPointAdvances | auto-optimizer/src/scan_log.rs:473-485 | a log ending in a finished point resumes one testing step further |
| ScanLogFile.ReadScanLog | auto-optimizer/src/scan_log.rs:289-363 | the entries read are those of the declarative parse, and errors are reported exactly when a non-blank line is no entry |
| ScanLogFile.LoadEncoded | auto-optimizer/src/scan_log.rs:289-363 | round trip: whole records are read back exactly |
| ScanLogFile.RecordsThen | auto-optimizer/src/scan_log.rs:305-357 | whole records are read back in order whatever bytes follow them |
| ScanLogFile.LastLineIsRecovered | auto-optimizer/src/scan_log.rs:326-346 | a record spoilt by trailing bytes is recovered on the last line and lost on any other; text of another schema version is not recovered |
| ScanLogFile.PaddingIsTrimmed | auto-optimizer/src/scan_log.rs:304-310 | white space around a record on its line does not matter |
| ScanLogFile.ErrorsAre | auto-optimizer/src/scan_log.rs:312-357 | whole records give no error; bytes behind them on one line give one exactly when they are neither blank nor an entry, recovered or not |
| ScanLogFile.CrashWhileAppending | auto-optimizer/src/scan_log.rs:150-156 | after any byte of an append all earlier entries are read, in order, and at most one more |
| ScanLogFile.CrashWhileCompleting | auto-optimizer/src/scan_log.rs:158-171 | the same after any byte of overwriting a pending record, the completion being no shorter |
| ScanLogFile.CompletionReplaces | auto-optimizer/src/scan_log.rs:158-171 | without a crash the completion replaces the pending line, and every record written since is dropped |
| ScanLogFile.TornTailSwallows | auto-optimizer/src/scan_log.rs:129-144 | a record appended to a torn last line is read back if and only if the torn bytes are blank; earlier entries are safe either way |
| ScanLogFile.CrashCostsNextRecord | auto-optimizer/src/scan_log.rs:129-156 | after a crash inside any append the torn record and the next one are both lost, even if the torn one could still be read before |
| ScanLogFile.ScanLogWriter.OpenAppend | auto-optimizer/src/scan_log.rs:129-144 | existing bytes are kept, the position is the end, nothing is pending |
| ScanLogFile.ScanLogWriter.WriteRecord | auto-optimizer/src/scan_log.rs:150-156 | the record is spliced in at the position, through every intermediate byte state |
| ScanLogFile.ScanLogWriter.WriteEntry | auto-optimizer/src/scan_log.rs:150-156 | the file grows by one record, through every intermediate byte state |
| ScanLogFile.ScanLogWriter.WritePendingTestResult | auto-optimizer/src/scan_log.rs:173-203 | the file grows by the pending record and its offset is remembered |
| ScanLogFile.ScanLogWriter.OverwriteEntry | auto-optimizer/src/scan_log.rs:158-171 | the file is cut at the pending offset and ends in the new record, through every intermediate byte state |
| ScanLogFile.ScanLogWriter.WriteCompletedTestResult | auto-optimizer/src/scan_log.rs:205-234 | overwrites a pending record or appends when there is none; nothing stays pending |
| ScanLogFile.LogTest | auto-optimizer/src/scan_log.rs:173-234 | pending record and completion in a row: every byte state the disk passes through reads back as the earlier entries and at most one more, the last as the earlier entries and the completion |
| Scanner.StepKeeps | auto-optimizer/src/oc_scanner.rs:405-495 | every action of a session and every crash between two events keep the coverage invariant of log, point and resume flag |
| Scanner.RunKeeps | auto-optimizer/src/oc_scanner.rs:235-495 | the invariant holds in every state of every run of sessions and crashes between events |
| Scanner.NoPointLeftBehind | auto-optimizer/src/oc_scanner.rs:405-495 | while a point is under test, every lattice point below it, the lowest aside, is finished since the last completed scan; the point is on the lattice and within range |
| Scanner.CompletedMeansAllFinished | auto-optimizer/src/oc_scanner.rs:405-495 | a completion record is written only when every lattice point up to the upper end, the lowest aside, is finished |
| Scanner.SessionCanComplete | auto-optimizer/src/oc_scanner.rs:405-495 | from the head of the point loop of every run a session can go on to a completed scan that finishes every lattice point left once and in order |
| Scanner.NeverTurnsUltrafast | auto-optimizer/src/oc_scanner.rs:273-277 | the log of a normal scan never hands the ultrafast mode on, and by Scanner.RunKeeps no run reaches such a session |
| Scanner.SessionBegins | auto-optimizer/src/oc_scanner.rs:235-280 | there is no session without a probed range; it begins with a mode record, the ultrafast one exactly when that mode is read back, and does nothing at index zero |
| Scanner.UltrafastIsInherited | auto-optimizer/src/oc_scanner.rs:273-277 | an interrupted ultrafast session is followed by another one |
| Scanner.StartIsInRange | auto-optimizer/src/oc_scanner.rs:259-271 | a session begins inside the range, at the recovered point if that lies in it |
| Scanner.KeepsPlaceIff | auto-optimizer/src/scan_log.rs:452-521 | in every run a session finds a point to go on from if and only if a test or a finished point is logged since the last mode record and the last completed scan |
| Scanner.CrashAfterModeRestarts | auto-optimizer/src/scan_log.rs:464-472 | so a log ending in the mode record resumes at the lowest point |
| Scanner.LatticeIsMultiples | auto-optimizer/src/oc_scanner.rs:421-426 | the lattice is exactly lower + k * testing_step |
| Scanner.ReadPointIsCovered | auto-optimizer/src/oc_scanner.rs:241-271 | a point read from the log of any run is a lattice point below which everything is finished |
| Scanner.ResumesBelowCrash | auto-optimizer/src/oc_scanner.rs:237-258 | after a crash inside a core test at d the search is capped at d and starts below it if and only if a passed core test is logged in the session or the default start is below d |
| Scanner.DiskRemembersCrash | auto-optimizer/src/oc_scanner.rs:330-345 | the same equivalence from the bytes on disk: writer, reader, reading and controller composed |
| Scanner.ResumesAtCrashOffset | auto-optimizer/src/oc_scanner.rs:237-258 | a default start equal to the crash offset resumes at that offset with the short phase switched off |
| Scanner.StartLoopUnderflowsIff | auto-optimizer/src/oc_scanner.rs:330-345 | the start-up loop of a session underflows if and only if a success without a failure leaves no step below the default limit it has reached, or the one failure is the default start and the margin is one step |
| Scanner.FirstShortPhaseUnderflowsIff | auto-optimizer/src/oc_scanner.rs:330-345 | for every log and an exponent of at least three: a session whose start-up loop ends begins with a short phase that can underflow if and only if it does not count as resumed, its failure lies below its success, and two steps do not fit below the default limit |
| Scanner.FirstShortPhaseNeverUnderflows | auto-optimizer/src/oc_scanner.rs:330-345 | the corollary for runs that crash between events: it never does |
| Overshoot.StartLoopUnderflows | auto-optimizer/src/oc_scanner.rs:330-345 | a run of the scan, logging exactly the tests its searches make on a device that passes all, after which the start-up loop underflows |
| TornOvershoot.FirstShortPhaseUnderflows | auto-optimizer/src/oc_scanner.rs:330-345 | for every record text a run with a torn mode record, logging exactly the tests its searches make with shipped parameters, after which the first short phase can underflow |
| TornLog.LoadReadable | auto-optimizer/src/scan_log.rs:289-363 | what is read back from any reachable file: the entries of its closed lines and at most one more from the tail |
| TornLog.AppendTorn | auto-optimizer/src/scan_log.rs:150-156 | a crash inside an append, also behind earlier torn bytes, changes no closed line and makes nothing new readable but the record itself |
| TornLog.AppendWhole | auto-optimizer/src/scan_log.rs:150-156 | a whole append is read back from a clean end, is lost behind torn bytes, and leaves a clean end |
| TornLog.OverwriteTorn | auto-optimizer/src/scan_log.rs:158-171 | after any byte of overwriting a result the test is unfinished, finished or gone, and the entries before it are safe |
| TornScan.RecoveredIsCovered | auto-optimizer/src/oc_scanner.rs:241-271 | a point read back from the bytes is a lattice point below which everything is finished |
| TornScan.StepKeeps | auto-optimizer/src/oc_scanner.rs:235-495 | every action, and a crash after any byte of any write, keeps the coverage invariant |
| TornScan.NoPointLeftBehind | auto-optimizer/src/oc_scanner.rs:405-495 | in every run with crashes after any byte: while a point is under test, every lattice point below it, the lowest aside, has been finished since the last completed scan |
| TornScan.CompletedMeansAllFinished | auto-optimizer/src/oc_scanner.rs:405-495 | a completion record is begun only when every lattice point up to the upper end, the lowest aside, has been finished |
| TornScan.FinishedMeansEnded | auto-optimizer/src/oc_scanner.rs:495-495 | a point counted as finished was ended by some session, and no completed scan reached the disk whole since |
| TornScan.CrashIsRemembered | auto-optimizer/src/oc_scanner.rs:330-345 | in every run with crashes after any byte: a crash while a core test runs caps the next search at its offset and starts it below, if and only if a passed core test can be read back from the session or the default start lies below that offset |
| TornScan.KeepsPlaceIff | auto-optimizer/src/scan_log.rs:452-521 | in every run with crashes after any byte a session finds a point to go on from if and only if a test or a finished point can be read back since the last mode record and the last completed scan |
| WholeWrites.WholeRunRefines | auto-optimizer/src/oc_scanner.rs:235-495 | every run on bytes that tears no write has a run on events that ends with the same log at the same place |
| WholeWrites.EventRunIsWhole | auto-optimizer/src/oc_scanner.rs:235-495 | and every run on events is such a run on bytes |
| PlainCodec.LawsCanBeKept | auto-optimizer/src/scan_log.rs:150-171 | the laws assumed of the record text can be kept all at once |
| CurveExport.InterpolatedIsFloor | auto-optimizer/src/oc_scanner.rs:517-528 | both branches equal bin * floor(numerator / (testing_step * bin)) |
| CurveExport.InterpolatedIsMonotone | auto-optimizer/src/oc_scanner.rs:517-528 | between two endpoints the exported deltas never turn back |
| CurveExport.InterpolatedAtEnds | auto-optimizer/src/oc_scanner.rs:517-528 | endpoints that are multiples of the bin are met exactly |
| CurveExport.InterpolatedIsBetween | auto-optimizer/src/oc_scanner.rs:517-528 | between endpoints that are multiples of the bin every delta lies between them |
| CurveExport.ExportsAre | auto-optimizer/src/oc_scanner.rs:497-544 | an endpoint is exported with its settled offset; k points below it the export is whole bins, less than one bin under the line to the endpoint before; below the first endpoint, under its own offset |
| CurveExport.CurveDoesNotTurn | auto-optimizer/src/oc_scanner.rs:507-544 | between two endpoints the exported deltas run from one to the other without turning back |
| CurveExport.EndpointOf | auto-optimizer/src/oc_scanner.rs:421-426 | every index above the lowest lies less than one testing step below an endpoint |
| CurveExport.ExportBlock | auto-optimizer/src/oc_scanner.rs:503-544 | one endpoint and the points below it are exported in falling order, each with the delta it is owed between that endpoint and the one before |
| CurveExport.FreshScan | auto-optimizer/src/oc_scanner.rs:405-544 | an uninterrupted scan exports every index in (lower, last] exactly once and no other, each with the delta it is owed, which CurveExport.ExportsAre spells out |
| Profile.InterpolationBounds | auto-optimizer/src/oc_profile_function.rs:621-652 | between falling non-negative whole-step keys the interpolation succeeds, falls, stays between the keys and gives whole steps |
| Profile.NeverExceedsKeysIff | auto-optimizer/src/oc_profile_function.rs:645-651 | inside the key voltages it succeeds, and stays at or below the larger key delta if and only if that is not negative |
| Profile.InterpolatedIsBetween | auto-optimizer/src/oc_profile_function.rs:621-652 | whole steps within one step under the line between the keys, nothing below one step, half the sum cut towards zero at equal voltages, and no answer exactly outside both |
| Profile.KeyIndicesAre | auto-optimizer/src/oc_profile_function.rs:654-673 | the collected indices are exactly the rows with non-zero frequency and delta, in order |
| Profile.KeyPointsAreFirst | auto-optimizer/src/oc_profile_function.rs:654-686 | the key points are the first four tested rows |
| Profile.GetKeyPointsIndices | auto-optimizer/src/oc_profile_function.rs:654-686 | the early-exit loop returns the first four tested rows or fails when there are fewer |
| Profile.NoRowFails | auto-optimizer/src/oc_profile_function.rs:727-745 | on rising voltages every row gets a delta |
| Profile.NewDeltaIsReceived | auto-optimizer/src/oc_profile_function.rs:707-747 | the delta computed for a row is the one stated from the four key rows alone |
| Profile.InterpolateDeltas | auto-optimizer/src/oc_profile_function.rs:698-750 | rows before the first key receive its delta less the guard band of one step, rows from the last key on its delta less two, stair rows the smaller of their two guarded keys, all others the line between theirs cut to whole steps; no other column changes; on rising voltages it fails only for want of four key points, and then changes nothing |
| Profile.CurveNeverRises | auto-optimizer/src/oc_profile_function.rs:698-750 | with falling, non-negative, whole-step guarded keys the whole delta curve never rises and stays non-negative, with or without the stair branches |
| Gemm.GridCovers | cli-stressor-opencl/test.py:209-210 | the rounded-up side is a whole number of tiles, covers the matrix and exceeds it by less than a tile |
| Gemm.OwnerOf | cli-stressor-opencl/test.py:555-556 | every output cell belongs to a work-item of the launch |
| Gemm.OutputsDiffer | cli-stressor-opencl/test.py:50-53 | two work-items never own the same output cell |
| Gemm.PaddingAddsNothing | cli-stressor-opencl/test.py:63-75 | terms beyond the matrix add nothing to a dot product |
| Gemm.StepKeeps | cli-stressor-opencl/test.py:59-89 | every single step of any work-item keeps the invariant of accumulators, tiles and barriers |
| Gemm.KernelComputesProduct | cli-stressor-opencl/test.py:42-90 | under every interleaving, for every size, tile, transposition and operands, each output cell ends as the plain dot product |
| Gemm.DotIsRaw | cli-stressor-opencl/test.py:63-76 | the dot product as a sum over the stored operands, for each of the four pairs of transpose flags |
| Gemm.KernelMultiplies | cli-stressor-opencl/test.py:42-90 | at the end of every completed run the cell at row * n + col is that sum; with a unit operand it is the other operand's entry, transposed exactly where its flag says so |
| Gemm.NoRace | cli-stressor-opencl/test.py:63-84 | no two work-items ever have conflicting accesses to one local cell due at the same time |
| Gemm.SomeItemCanStep | cli-stressor-opencl/test.py:77-84 | no deadlock: until all are done some work-item can step |
| Gemm.StepAdvances | cli-stressor-opencl/test.py:59-85 | every step brings its work-item nearer its end and touches no other |
| Gemm.EnqueueGemm | cli-stressor-opencl/test.py:547-567 | the launch ends under every scheduling and leaves the product, in terms of the stored operands too |
| Gemm.Recompute | cli-stressor-opencl/verify_opencl.py:226-233 | the checker's loop over raw indices computes the same dot product |
| Gemm.GemmSampleCheck | cli-stressor-opencl/verify_opencl.py:212-255 | with the items' atomic updates in any order: mismatches, non-finite cells, checked samples and groups are counted exactly, the largest difference is the largest, and first_bad is the bad sample that was reported first |
| Gemm.CheckerAcceptsKernel | cli-stressor-opencl/verify_opencl.py:208-255 | on the output of any completed run the checker reports nothing |
| Gemm.ChecksOutIff | cli-stressor-opencl/verify_opencl.py:234-255 | it reports nothing if and only if every sampled cell is a number within tolerance of the dot product |
| Gemm.ExactCheckerCountsErrors | cli-stressor-opencl/verify_opencl.py:240-252 | without tolerance a sample is counted if and only if its cell is a number other than the dot product |
| Words.PopcountFindsLowestBit | cli-stressor-opencl/verify_opencl.py:151 | the ones of x ^ (x - 1) number one more than the index of the lowest set bit |
| Words.LowestBitIsLowest | cli-stressor-opencl/verify_opencl.py:151 | that index names a set bit with every lower bit clear |
| Compare.KernelBinIsLowest | cli-stressor-opencl/verify_opencl.py:142-152 | for differing words the histogram bin is the lowest differing bit, below 32 |
| Compare.StepKeeps | cli-stressor-opencl/verify_opencl.py:132-154 | every atomic step of any work-item keeps the invariant that ties the report to the items' progress |
| Compare.EveryRunReports | cli-stressor-opencl/verify_opencl.py:132-154 | under every interleaving and for every buffer a finished launch reports, modulo 2^32, the number of wrong words, the extremes of their indices as cut to 32 bits, their lowest differing bits and the launched groups, and one single faulting word |
| Compare.ReportedHistogramSums | cli-stressor-opencl/verify_opencl.py:142-152 | below 2^32 words the histogram sums to the total, which is the number of wrong words |
| Compare.LaunchCompare | cli-stressor-opencl/verify_opencl.py:445-463 | the launch ends under every scheduling with such a report |
| Engine.LaunchFill | cli-stressor-opencl/verify_opencl.py:432-443 | in any order of the work-items the whole buffer holds the pattern |
| Engine.FirstExpected | cli-stressor-opencl/verify_opencl.py:40-42 | the pattern counts its indices from zero |
| Engine.CounterIsZeroIff | cli-stressor-opencl/verify_opencl.py:507-532 | the reported total is zero if and only if the buffer is clean, or has exactly 2^32 words and all are wrong |
| Engine.FlipIsCaught | cli-stressor-opencl/verify_opencl.py:706-722 | a single flipped bit makes every report say exactly that index and bit |
| Engine.CaughtMeansFlip | cli-stressor-opencl/verify_opencl.py:706-722 | a report that says so comes only from exactly that flip |
| Engine.GateDecides | cli-stressor-opencl/verify_opencl.py:706-722 | the second gate's verdict is given if and only if exactly the injected bit is wrong |
| Engine.InjectionFlips | cli-stressor-opencl/verify_opencl.py:156-160 | the injection leaves exactly that bit wrong if and only if nothing was wrong before |
| Engine.InjectError | cli-stressor-opencl/verify_opencl.py:156-160 | one word is changed by the mask and no other |
| Engine.VerifyEngine.SetFailure | cli-stressor-opencl/verify_opencl.py:465-474 | only the first failure since the last drain is kept |
| Engine.VerifyEngine.Drain | cli-stressor-opencl/verify_opencl.py:476-479 | the statistics are handed out and reset together with the failure |
| Engine.VerifyEngine.AbsorbPattern | cli-stressor-opencl/verify_opencl.py:507-532 | counters advance; an incomplete launch is reported before wrong words, and neither where both come out right; an earlier failure is kept |
| Engine.VerifyEngine.PatternCheck | cli-stressor-opencl/verify_opencl.py:486-505 | over any memory behaviour and any buffer a new failure is set if and only if a 32-bit counter shows one; up to 2^32 words that means some word is wrong (exactly 2^32 all wrong excepted), with a true report |
| Engine.VerifyEngine.Gate | cli-stressor-opencl/verify_opencl.py:667-685 | the report is true of what the memory kept, and an injection leaves a single flip if and only if the memory kept the pattern |
| Engine.VerifyEngine.RunSelfTest | cli-stressor-opencl/verify_opencl.py:663-752 | for every pattern, index and bit each gate passes if and only if the memory kept the pattern, and the scratch buffer is restored |
| Engine.VerifyEngine.RunStandardSelfTest | cli-stressor-opencl/verify_opencl.py:663-685 | the same for the engine's own seed, index 0xADBA and bit 22 |
| Hash.MixIsPermutation | cli-stressor-cuda-rs/src/lib.rs:815-821 | the finalizer is a permutation of the 64-bit words with an explicit inverse |
| Hash.DrawsNeverRepeat | cli-stressor-cuda-rs/src/lib.rs:815-821 | 2^64 consecutive outputs from any state are pairwise different |
| Hash.NextIsDraw | cli-stressor-cuda-rs/src/lib.rs:815-821 | one call from the state k steps on yields draw k + 1 and the state k + 1 steps on |
| Hash.SplitMix64.Next | cli-stressor-cuda-rs/src/lib.rs:815-821 | the state advances by the golden constant and the finalized state is returned |
| Hash.PatternIsInjective | cli-stressor-cuda-rs/src/verify.rs:17-31 | before truncation the pattern oracle separates any two indices, for every seed |
| Hash.ExpectedIsUpperHalf | cli-stressor-cuda-rs/src/verify.rs:17-31 | the word the oracle expects is the upper half of its 64-bit word |
| Hash.KnownAnswers | cli-stressor-cuda-rs/src/verify.rs:17-31 | the published outputs of the generator from seed zero, and two words of the oracle |
| RandomFill.GoldenStepsIsProduct | cli-stressor-cuda-rs/src/lib.rs:857-857 | n wrapping additions of the golden constant are one wrapping multiplication by n |
| RandomFill.WordIsMix | cli-stressor-cuda-rs/src/lib.rs:852-870 | word k of chunk c is mix(seed + (c + k + 1) * G) modulo 2^64 |
| RandomFill.FillByteIs | cli-stressor-cuda-rs/src/lib.rs:852-870 | the byte at position i is byte i mod 8, from the low end, of draw i / 65536 + (i mod 65536) / 8 + 1 |
| RandomFill.LeBytesRoundTrip | cli-stressor-cuda-rs/src/lib.rs:860-861 | a word written low byte first is read back from its eight bytes |
| RandomFill.ChunksOverlap | cli-stressor-cuda-rs/src/lib.rs:857-860 | word k of a chunk is word k + 1 of the chunk before it |
| RandomFill.FillRandomBytes | cli-stressor-cuda-rs/src/lib.rs:852-870 | with the chunk tasks interleaved word by word in any way, each position holds its byte once its task has come that far and nothing else moves, partial tails included |
| RandomFill.OrderDoesNotMatter | cli-stressor-cuda-rs/src/lib.rs:850-851 | any two complete schedules leave the same buffer |
| RandomFill.CopyTile | cli-stressor-cuda-rs/src/lib.rs:919-921 | one block becomes a copy of the tile, cut at the end, and nothing else changes |
| RandomFill.TiledRandomBytes | cli-stressor-cuda-rs/src/lib.rs:911-923 | for every length, position i holds byte i modulo the tile length of the tile |
| Vbios.FindBit | cli/src/vbios.rs:162-164 | the first signature or none |
| Vbios.FollowChain | cli/src/vbios.rs:183-209 | the inner loop collects the chain of plausible entries, its verdict and its end |
| Vbios.ParseBit | cli/src/vbios.rs:172-230 | each error for exactly its own reason, otherwise the earliest of the longest terminated chains of at least four entries |
| Vbios.AnswerIsUnique | cli/src/vbios.rs:172-230 | that specification determines the answer |
| Vbios.AcceptedIff | cli/src/vbios.rs:180-219 | a start is looked at and accepted if and only if it lies 4 to 63 bytes behind the signature with more than six bytes to come, and four or more plausible entries and a zero byte follow, in terms of the image's bytes |
| Vbios.WalkReadsEntries | cli/src/vbios.rs:186-208 | every token read is six bytes of the image, sizes low byte first, printable, of version at most ten and inside the image |
| Vbios.WalkStops | cli/src/vbios.rs:186-202 | the walk ends well where the image, the 512-byte reach or the table ends, and badly exactly where six bytes are no entry |
| Vbios.HeaderIsRead | cli/src/vbios.rs:172-177 | a header behind bytes without a signature is the one found, and its version byte is reported |
| Vbios.WalkReadsTable | cli/src/vbios.rs:183-209 | from the start of an emitted table exactly its tokens are read, up to the terminator |
| Vbios.InsideIsShort | cli/src/vbios.rs:182-219 | no start inside a table or its terminator, aligned or not, reads more entries than are left |
| Vbios.ParserInvertsEmitterIff | cli/src/vbios.rs:172-230 | the parser returns exactly the emitted tokens if and only if no longer chain starts behind the terminator inside the scan window |
| Vbios.LongTableIsSafe | cli/src/vbios.rs:180-180 | a table that reaches the end of the scan window always wins |
| Vbios.DecoyWins | cli/src/vbios.rs:210-218 | an image with an emitted four-entry table on which the parser answers something else |
| Vbios.AcceptedTokensSlice | cli/src/vbios.rs:86-92 | every accepted token slices to its full size under the detected base; an absent one gives nothing |
| Vbios.LayoutSurfacesIff | cli/src/vbios.rs:244-278 | the perf table sliced under the detected base shows a known layout if and only if it does under the BIT-relative or the image-relative base |
| Vbios.FlatTableSurvives | cli/src/vbios.rs:172-278 | an emitted image whose perf table has a known layout at its second byte, or at its third if not at its second, keeps the BIT-relative base, and table and layout come out of parsing and slicing |
| Vbios.DirectorySurvivesIff | cli/src/vbios.rs:172-278 | a perf pointer directory at an image offset, with the layout it points at, comes out if and only if the BIT-relative base resolves to no layout |
| Guard.SplitIsExact | cli-common/src/ghelper_guard.rs:108-117 | a key splits into a base and a mode if and only if it is that non-empty base, an underscore and one or two decimal digits of that mode, tens first |
| Guard.OcKeyIff | cli-common/src/ghelper_guard.rs:122-131 | a key is stripped if and only if it is one of the six names with a mode up to 19 |
| Guard.FindOcKeys | cli-common/src/ghelper_guard.rs:122-133 | in any order of the entries, exactly the per-mode GPU entries with their values |
| Guard.RemoveKeys | cli-common/src/ghelper_guard.rs:222-224 | exactly those entries are gone |
| Guard.StripIsExact | cli-common/src/ghelper_guard.rs:207-224 | what is kept and what is removed partition the object by key, values unchanged |
| Guard.Disk.WriteTmp | cli-common/src/ghelper_guard.rs:313-313 | the temporary file is written character by character, perhaps not to the end, through crash-safe states only |
| Guard.Disk.Replace | cli-common/src/ghelper_guard.rs:300-326 | unfreeze, write, rename; succeeds exactly when all three do, and a failure leaves the config and, if it can, the frozen attribute as they were |
| Guard.Disk.BackUpAndReplace | cli-common/src/ghelper_guard.rs:251-341 | no backup, no rewrite; a failed rewrite leaves the config alone and the temporary file is removed |
| Guard.Disk.StripOcKeys | cli-common/src/ghelper_guard.rs:182-353 | at every crash point the config is the old or the fully stripped one, stripped implies a backup, an existing backup is unchanged and a new one is a copy; each status for exactly its own reason |
| Guard.SecondRunIsClean | cli-common/src/ghelper_guard.rs:207-220 | what a strip leaves parses to an object without per-mode GPU keys |
| Guard.StripTwice | cli-common/src/ghelper_guard.rs:182-353 | after a successful or clean run a second one reports clean and leaves the config |

## Left out

- Offsets are whole kHz; the conversion of logged offsets to MHz as floating point and back is not modelled.
- StepSearch.ShortPhaseFitsInI32: the bounds are sufficient, not necessary, because the exact ones depend on every verdict of the run.
- StepSearch.StepController.RunShortPhase: setup or test calls that return an error and abort the phase are not modelled; an aborted phase is a crash of the session.
- `init_from_prior`, the architecture safety policy (commented out at its call sites), fluctuation strategies and the empty 50-series penalty.
- BoostPhases.UnderflowIff: an underflow ends the phase, as in a build with overflow checks; the wrapped value of an unchecked build is not modelled.
- BoostPhases.RunShortPhase: setting and rechecking the curve before a test, which may fail and abort the session, is not modelled; the legacy and memory phases of `phases.rs`, `pressure.rs` and `runtime.rs` are not part of this model.
- Multi-GPU scans, ultrafast and legacy scans, the memory-domain scan, and a voltage range that changes between sessions.
- Scanner.StepKeeps: crashes fall between events; TornScan has them inside every write. Declining to resume from a log with errors is the `refused` choice.
- Scanner.RunKeeps: for the same reason its runs crash at event boundaries; TornScan.StepKeeps covers every byte.
- Scanner.KeepsPlaceIff: like TornScan.KeepsPlaceIff needs upper + testing step at most 255; past that bound the reader ignores the index it would go on from.
- Overshoot.StartLoopUnderflows: a session whose start-up loop underflows dies before its point loop; in the state machines its next step is a crash like any other.
- TornScan.StepKeeps: `finished` is the work the sessions have done. A finished point whose record was torn off after its last brace and joined later is missing from the log's text (CrashCostsNextRecord), and so from an export made from it.
- TornScan.NoPointLeftBehind: needs an upper end of at most 255, the bound the reader itself puts on a plausible point.
- A voltage index missing from the device's table ends the session with an error; here that is a crash.
- ScanLogFile.CrashWhileCompleting: assumes the completion is no shorter than the pending record, as it is for the source's fields: the time that replaces an empty one outweighs the shorter result; a torn write inside a multi-byte character, which the reader rejects as a whole, is not modelled.
- `voltage_points_from_entries`, `export_points_from_jsonl_entries` and `fix_result` would only add easier members; the bin amounts of `fix_result` differ between documentation and code.
- Profile.InterpolateDeltas: rows are already parsed and `f64` is exact; a row without a delta column, on which the source stops, does not occur. What rows receive is spelled out for a positive frequency step, as every part of `core/src/gpu_type.rs` has.
- Gemm.KernelComputesProduct: integers stand for floating-point scalars and indices do not wrap at 32 bits; rounding and contraction are not modelled.
- Gemm.GemmSampleCheck: the tolerance is a function of the recomputed value, a recomputed product is always finite, and differences are integers rather than float bit patterns.
- `gemm_stats_reduce`: the host sums slots the launch did not write, so its totals have no exact meaning.
- Engine.VerifyEngine.RunSelfTest: exceptions raised by a kernel launch, which fail a gate, are not modelled; the memory behaves the same way in both gates.
- Engine.VerifyEngine.PatternCheck: an engine without a pattern buffer, which checks nothing, is left out, and message texts are data.
- `fill_random_f32`, `fill_random_i32` and the CUDA kernels.
- Vbios.AcceptedTokensSlice: `to_json` and `parse_fermi_model` only reformat what is sliced and are left out.
- Guard.Disk.StripOcKeys: copying and renaming a file are atomic, the object's text is an abstract codec, and the report lines, `run_guard`, the process check and the permanent freeze are left out; a serializer error does not occur.
