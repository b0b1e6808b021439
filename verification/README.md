# DrKonqi, modelled and proved

DrKonqi watches a crashed application: it runs a debugger on it, turns the debugger's byte stream into a rated
backtrace, waits in the system tray for the user, and sends an envelope with the crash to Sentry. This project models
the stateful parts of that in Dafny and proves what they promise over every input and every run.

| part | files |
|---|---|
| bytes to lines, wrapped lines rejoined, the two-list gdb parser | `LineSplitting`, `LineJoining`, `LogicalLines`, `BacktraceLines`, `FrameLines`, `LibraryNames`, `GdbParserModel`, `GdbThreads`, `GdbParserInvariants`, `GdbAccounting`, `TracePipeline` |
| rating, simplified backtrace, cached results | `LineRules`, `LineDescriptions`, `FrameRoles`, `Rating`, `RatingWindow`, `RatingLaws`, `RatingRaises`, `RatingScan`, `RatingLoops`, `RatingReport`, `SimplifiedBacktrace`, `SummaryLaws`, `TraceSummary`, `TraceVerdict` |
| the parser as an object | `BacktraceParserGdb`, `VisibleLines` |
| the debugger session and the lock shared by several DrKonqi processes | `Session`, `SessionLaws`, `SessionTable`, `SessionOutcomes`, `DebuggerLock`, `DebuggerExclusion`, `BacktraceGenerator` |
| the auto-activate and auto-close timer | `TimerModel`, `TimerLaws`, `TimerProgress`, `ActivationCloseTimer` |
| envelopes, postbox, postman | `Utf8`, `Utf8Scalars`, `EnvelopeFormat`, `EnvelopeContents`, `EnvelopeLimits`, `ReporterModel`, `ReporterLaws`, `ReporterContents`, `ReporterCalls`, `PayloadStore`, `DeliveryLaws`, `SentryDelivery` |
| the gdb preamble's images, lazy library loading, frame clipping | `CoreImages`, `SolibLoading`, `SolibLaws`, `FrameClipping` |
| systemd unit names, the coredump transport | `UnitNames`, `PlainServiceUnits`, `MarkedServiceUnits`, `CoredumpTransport` |

The object modules (`BacktraceParserGdb`, `BacktraceGenerator`, `ActivationCloseTimer`, `SentryDelivery`, `SolibLoading`)
keep the source's fields and update them in place; each method is proved equal to a step function on values, and the
laws are proved about those functions and about whole runs of them. Signals are calls to the connected slots. Sequences
of external events are traces: every event the surroundings can deliver is a step, in any order the event's guard allows.

`dafny verify dfyconfig.toml` checks the whole project.

## What the proofs turned up

- The verdict is exact in the code's 32-bit arithmetic up to 46340 counted frames, and the best possible rating wraps
  with the next one. A window with no counted frame but an ignored stack base is rated ReallyUseful.
- Raising ratings lowers the verdict of a trace in exactly one way: its first frame has rating 0 and is exempt so far,
  is not ignored, no stack top lies below it, and the window's sum W over c frames is at least k tenths of
  the best 2c(c+1), but 10 W < k 2c(c+1) + (4k - 10)(c + 1), for k = 9 or 7, or 4 with a stack base (without one, c > 0 is needed as well).
  Then knowing the first frame's library is enough to lose rank.
- Two debuggers can run at once if and only if a lock file is missing, a wait for the lock times out (the code starts
  anyway), DrKonqi is destroyed while its debugger is starting, or the lock is given back while the debugger still
  lives: after an error that leaves it running, when it ignores the destructor's terminate() for ten seconds, or when a
  detached lldb ignores it for half a second. Each of these does it from any initial system of two or more processes.
- watchIdle starts the close timer whatever the pending counter says. With the shorter activation timeout this never
  closes the notifier while a service is missing; but with exactly one service missing at the start, and back before
  the activation, it closes before a full quiet close timeout.
- When one of several missing services comes back, the activation timer stops although others are still missing, and
  the close timer stays off: until the next signal nothing happens at all.
- A frame with a source file has the best rating and is worth showing even if its function is unknown, and with "at" a
  path counts as a library's whenever ".so" stands behind an earlier '.' of the file name, as in x.y.sock.
- An information line keeps exactly its message only if nothing stands in front of the marker: the first 21 characters go
  in any case.
- m_output survives a run: a partial last line becomes part of the next run's first line.
- The length header of an envelope item counts the payload before its trip through QString. A reader recovers an
  envelope, with any number of items, if and only if every payload is UTF-8 without a byte order mark in front.
- A service unit without a random part, which the naming scheme allows, gives its application id back only if the id
  echoes the launcher: kate from app-kate-kate.service. With no launcher it never does.
- A pending envelope can still be sent if and only if it is in flight, or younger than 30 days and with a DSN.
- The header comment of simplifiedBacktrace promises at most 5 lines; the code lists up to 16, and so does the model.

## Assumptions

- Regular expressions of gdb's lines are the abstract functions of `Patterns`; the order of the tests around them, and
  everything done with their captures, is concrete. Compact JSON and QString's UTF-8 conversion are the abstract functions of `Codec`
  with the laws of `Codec.Lawful`. The local 8-bit decoder gives at least one character for a complete line, which ends in
  a newline.
- The thresholds 0.90, 0.70 and 0.40 are compared as exact fractions. For 32-bit sums the rounding of the double product
  never carries it past an integer that the exact product does not reach, so the comparisons agree.
- The backend answers each preparing() once, the memory fence emits loaded() once per surroundMe(), start() comes only
  outside Loading, a crash of the debugger is reported by the error and at once by the finish, a discarded process
  sends nothing more, and DrKonqi is not destroyed while a thread waits for the lock. The lock is not broken as stale.
- A timer fires at its deadline or any time later; of two timers that are due, the one due first goes first.
- File operations succeed, payload paths (event id and time stamp) are never reused, one postman runs at a time, and
  the DSN that was looked up is not empty.
- The frames of a thread do not change while its libraries are loaded.
- One write to the coredump socket is one record.

## Model

| member | source | states |
|---|---|---|
| LineSplitting.CutIsSplit | src/backtracegenerator.cpp:149-154 | the read loop's lines end in their only newline, and with the rest they are the bytes |
| LineSplitting.LinesEndInLineFeed | src/backtracegenerator.cpp:149-154 | byte 10 ends every line handed on, stands nowhere else in it, and is not in the rest |
| LineSplitting.SplitIsUnique | src/backtracegenerator.cpp:149-154 | there is no other way to cut the bytes at their newlines |
| LineSplitting.ChunksDoNotMatter | src/backtracegenerator.cpp:145-154 | any chunking of the same bytes gives the same lines and leaves the same rest |
| LineSplitting.LeftoverShows | src/backtracegenerator.cpp:115-135 | m_output is not cleared by start(): a leftover changes the next run's lines unless it is empty or the run prints no line (if and only if) |
| LineJoining.JoiningIsLogical | src/parser/backtraceparsergdb.cpp:178-194 | after the closing empty line parseLine has received each first line with all its continuations, and the buffer is empty |
| LogicalLines.LogicalExactly | src/parser/backtraceparsergdb.cpp:185-194 | there are as many logical lines as lines without a blank or tab in front, the first counting in any case, and no other begins with one |
| LineJoining.LogicalKeepsText | src/parser/backtraceparsergdb.cpp:182-193 | joining loses, adds and moves no character |
| BacktraceLines.Classify | src/parser/backtraceparsergdb.cpp:17-109 | the text is kept; exactly the stack frames get a rating and a frame number; KCrash is exactly the handler text |
| FrameLines.KindIsFirstTest | src/parser/backtraceparsergdb.cpp:28-126 | the kind of every line, by its text alone: the first test that applies, in the order of the source |
| FrameLines.OthersSayNothing | src/parser/backtraceparsergdb.cpp:17-26 | a line that is no frame has rating -1, no number, function ??, no file, no library |
| FrameLines.MarkerIs | src/parser/backtraceparsergdb.cpp:219 | the line put in place of KCrash's frames |
| FrameLines.FrameIsRated | src/parser/backtraceparsergdb.cpp:65-150 | what a frame line captures, and its value: 4 with a source file, else 2 for a known function plus 1 for a known library |
| FrameLines.InfoExactly | src/parser/backtraceparsergdb.cpp:204-206 | an information line leaves exactly its message if and only if nothing stands in front of the marker |
| LibraryNames.SourceFileExactly | src/parser/backtraceparsergdb.cpp:70-85 | a path is a source file if and only if gdb said "at" and the file name has no ".so" at its end, before a '.', or behind an earlier '.' |
| GdbThreads.ReportIsThreads | src/parser/backtraceparsergdb.cpp:196-251 | over every input m_linesList and m_linesToRate are, thread by thread, the lines without noise and second frame 0, everything down to the first handler replaced by one marker, and the frames below it |
| GdbThreads.InformationLines | src/parser/backtraceparsergdb.cpp:204-206 | m_infoLines are the texts of exactly the information lines, in order |
| GdbThreads.KeptExactly | src/parser/backtraceparsergdb.cpp:228-240 | a line is dropped exactly for being noise or a frame 0 after an earlier frame 0 of its thread |
| GdbParserInvariants.RatedStaysSafe | src/parser/backtraceparsergdb.cpp:214-220 | no line, in particular no erase, takes a frame away from the rating or leaves a rated frame out of m_linesList |
| GdbParserInvariants.EveryStateIsSafe | src/parser/backtraceparsergdb.cpp:196-251 | in every reachable state rated frames are a subsequence of the list, and of the part the erase keeps while above a handler |
| GdbAccounting.ShownFrameZeros | src/parser/backtraceparsergdb.cpp:228-240 | each thread shows at most one frame 0 |
| GdbAccounting.ThreadsPartition | src/parser/backtraceparsergdb.cpp:207-213 | the threads are the input, cut in front of the headers |
| GdbAccounting.ThreadsCountIsHeaders | src/parser/backtraceparsergdb.cpp:207-220 | m_threadsCount is the number of thread headers in m_linesList: none is ever erased |
| BacktraceParserGdb.BacktraceParserGdb.ParseLine | src/parser/backtraceparsergdb.cpp:196-251 | the fields change as the state machine says, buffer and cached results do not change |
| BacktraceParserGdb.BacktraceParserGdb.NewLine | src/parser/backtraceparsergdb.cpp:178-194 | buffer and parser state after one signal |
| BacktraceParserGdb.BacktraceParserGdb.ResetState | src/parser/backtraceparser.cpp:117-122 | everything is as new |
| BacktraceParserGdb.BacktraceParserGdb.CalculateRatingData | src/parser/backtraceparser.cpp:243-345 | the four cached results are those calculated from m_linesToRate and their old values |
| BacktraceParserGdb.BacktraceParserGdb.BacktraceUsefulness | src/parser/backtraceparser.cpp:77-89 | answers from the refreshed cache, never InvalidUsefulness |
| BacktraceParserGdb.BacktraceParserGdb.ParsedBacktraceLines | src/parser/backtraceparsergdb.cpp:273-291 | the list, without indicator, header and empty lines when there is one thread |
| BacktraceParserGdb.BacktraceParserGdb.ParsedBacktrace | src/parser/backtraceparsergdb.cpp:253-271 | the text of exactly those lines |
| VisibleLines.VisibleExactly | src/parser/backtraceparsergdb.cpp:281-287 | every line is shown, in order, but thread indicators, thread headers and empty lines of a lone thread |
| VisibleLines.TextsExactly | src/parser/backtraceparsergdb.cpp:257-270 | the text is that of the lines, one after the other |
| TracePipeline.FeedIsJoinThenParse | src/parser/backtraceparsergdb.cpp:178-194 | joining and parsing line by line equals joining everything and then parsing it |
| TracePipeline.ReadingContinues | src/backtracegenerator.cpp:144-154 | each slotReadInput continues what the parser was fed by the ones before |
| TracePipeline.ReportDependsOnBytesOnly | src/backtracegenerator.cpp:137-199 | however the output was chunked, after the closing empty line the parser holds the threads of the bytes' logical lines and an empty buffer |
| TracePipeline.LogicalLinesKeepText | src/backtracegenerator.cpp:149-154 | the logical lines spell out the complete lines of the output |
| LineDescriptions.DescriptionIsValid | src/parser/backtraceparser.cpp:131-177 | stack bases and stack tops have a function name; rated frames have a value from 0 to 4 |
| FrameRoles.BasesAre | src/parser/backtraceparser.cpp:131-161 | a frame is a stack base if and only if its function has one of seven names or is an application's notify |
| FrameRoles.TopsAre | src/parser/backtraceparser.cpp:166-178 | a frame is a stack top if and only if its function has one of four names or begins with qt_assert |
| FrameRoles.IgnoredAre | src/parser/backtraceparser.cpp:182-199 | exactly which frames are ignored, by library and function |
| FrameRoles.UsefulAre | src/parser/backtraceparser.cpp:201-241 | exactly which frames are worth showing |
| FrameRoles.TextsAre | src/parser/backtraceparser.cpp:256-280 | text, trimmed library and the compositor message of a frame |
| Sequences.AsciiSpaces | src/parser/backtraceparser.cpp:280 | what trimming takes for space, among ASCII characters |
| RatingWindow.WindowExactly | src/parser/backtraceparser.cpp:253-288 | the frames that count, by position: not ignored, no stack top at or below, no base in reach above, not an unknown first one |
| RatingWindow.BaseExactly | src/parser/backtraceparser.cpp:268-273 | a stack base counts as seen if and only if no stack top lies below one |
| RatingScan.StepIsAfter | src/parser/backtraceparser.cpp:267-286 | one turn of the backward loop takes the accumulators from the window below a frame to the window from that frame on, with wrap-around |
| RatingScan.ScanIsWindow | src/parser/backtraceparser.cpp:243-290 | where the loop leaves, its sums are those of the rating window: below the last stack top, down to the first base |
| RatingLoops.RateFrame | src/parser/backtraceparser.cpp:268-286 | one turn of the backward loop: base reset, missing library, the three sums in 32 bits |
| RatingLoops.ScanFrames | src/parser/backtraceparser.cpp:252-290 | the backward loop: which frame it leaves at, and what it has gathered by then |
| RatingLoops.RateFrames | src/parser/backtraceparser.cpp:247-290 | what the backward loop amounts to: the sums of the declarative window, the compositor flag and the libraries found |
| RatingLoops.Simplify | src/parser/backtraceparser.cpp:298-317 | the forward loop writes the listing |
| RatingLoops.Judge | src/parser/backtraceparser.cpp:319-339 | the thresholds and the downgrade without a stack base |
| RatingLoops.Calculate | src/parser/backtraceparser.cpp:243-345 | the verdict is that of the declarative window; the lists grow by the loops' findings without duplicates |
| RatingLaws.WeightedBounds | src/parser/backtraceparser.cpp:283-285 | 0 <= rating <= best = 2c(c+1) |
| RatingLaws.BestFits | src/parser/backtraceparser.cpp:247-285 | the best rating fits 32 bits if and only if at most 46340 frames count |
| RatingLaws.MachineVerdictIsExact | src/parser/backtraceparser.cpp:247-339 | up to there the code's verdict is the exact one |
| RatingLaws.RaisingNeverLowers | src/parser/backtraceparser.cpp:253-339 | raising ratings pointwise never lowers the verdict, with or without a stack base, as long as the first frame's exemption (rating 0 or not) stays as it was |
| RatingRaises.LoweredExactlyWhen | src/parser/backtraceparser.cpp:253-339 | for every valid trace: some raise of its ratings lowers the verdict if and only if the first frame is exempt so far, not ignored, below no stack top, and its rating of 1 would take the window's sums across a threshold |
| RatingLaws.RaisingFirstFrameCanLower | src/parser/backtraceparser.cpp:260-266 | a two-frame instance that loses two ranks |
| RatingLaws.BelowBaseIsIrrelevant | src/parser/backtraceparser.cpp:268-274 | whatever lies under a stack base, without a stack top, leaves the verdict unchanged |
| RatingLaws.IgnoredDownToBase | src/parser/backtraceparser.cpp:268-339 | a trace of ignored frames down to its first stack base is ReallyUseful, whatever lies below, in exact and in machine arithmetic |
| TraceVerdict.AnnouncedVerdictIsExact | src/parser/backtraceparser.cpp:243-345 | for every gdb trace with at most 46340 counted frames the announced verdict is exact |
| RatingReport.OneCalculation | src/parser/backtraceparser.cpp:64-115 | any number of accessor calls after the last line answers from one calculation, never InvalidUsefulness |
| RatingReport.FindingsAre | src/parser/backtraceparser.cpp:253-290 | exactly which libraries are reported, in which order, and when a compositor crash is: the list is not cut at a stack base |
| SimplifiedBacktrace.ListingRendersEntries | src/parser/backtraceparser.cpp:292-317 | for plain frame texts the loop appends the entries, a gap wherever garbage follows a listed line it may still go on from |
| SimplifiedBacktrace.ListedAreFirstUseful | src/parser/backtraceparser.cpp:301-309 | listed are the first 16 useful frames, in order |
| SimplifiedBacktrace.GapsAreFew | src/parser/backtraceparser.cpp:310-315 | at most 15 gaps |
| SimplifiedBacktrace.GapsAreWellSpaced | src/parser/backtraceparser.cpp:310-315 | no gap at the front, no two in a row |
| SimplifiedBacktrace.SecondListing | src/parser/backtraceparser.cpp:307 | a second calculation shows the right text if and only if nothing was listed before |
| SummaryLaws.SummaryIs | src/parser/backtraceparser.cpp:292-317 | a calculation appends to the simplified backtrace the first sixteen useful lines, or all of fewer, in order, and a gap after each but the sixteenth exactly where garbage comes next |
| TraceSummary.AnswerShows | src/parser/backtraceparser.cpp:64-115 | the same as the answer of a parser that has read a whole trace, however often it is asked |
| SessionLaws.ReactKeeps | src/backtracegenerator.cpp:115-336 | every event keeps the session invariant, the source's assertions hold on the way, and the lock is taken only while free and given back only by its owner |
| SessionTable.ReactIsExpected | src/backtracegenerator.cpp:115-360 | every event does to every field of a session, and to the lock, exactly what a table without any of the session's own steps says |
| SessionOutcomes.StateIsOutcome | src/backtracegenerator.cpp:190-270 | in every run a process's state is the outcome of its own last start, failed preparation, exit, error or detachment, read off the trace |
| SessionLaws.DestroyedWhileStarting | src/backtracegenerator.cpp:93-113 | a process that is still starting survives the destructor, which frees the lock |
| DebuggerLock.DebuggerHoldsLock | src/backtracegenerator.cpp:272-336 | in every interleaving of any number of processes a live debugger belongs to the lock holder, or its wait timed out, or it has no lock file, or its DrKonqi is gone, or it was given up without waiting for its end |
| DebuggerLock.OneDebuggerAtATime | src/backtracegenerator.cpp:272-336 | what a system with two live debuggers shows: one of them is such an exception |
| DebuggerLock.RetryIsPossible | src/backtracegenerator.cpp:115-135 | outside Loading there is no process, no temporary file, no held lock, debuggerRunning is false, and start() may be called |
| DebuggerLock.LoadingGoesOn | src/backtracegenerator.cpp:272-336 | a Loading session always has an event owed to it |
| DebuggerLock.StoppedExactlyWhenNoted | src/drkonqibackends.cpp:191-219 | the crashed process is stopped exactly in ProcessStopped, never while its debugger runs, and not once DrKonqi is gone |
| DebuggerExclusion.ExclusiveExactlyWhen | src/backtracegenerator.cpp:93-336 | for any initial system of two or more processes: in no run do debuggers overlap if and only if all have lock files, no wait times out, no DrKonqi is destroyed while its debugger starts, no error leaves a debugger running, and none ignores the terminate() of the destructor or of a detachment for as long as it is waited for |
| DebuggerExclusion.CalmIsExclusive | src/backtracegenerator.cpp:272-336 | under these conditions every run of any number of processes has at most one debugger at any time |
| DebuggerExclusion.MissingLockFileBreaks | src/backtracegenerator.cpp:276-280 | from any initial system a process without a lock file meets any other process's debugger |
| DebuggerExclusion.TimeoutBreaks | src/backtracegenerator.cpp:297-315 | with a timed out wait any two processes with lock files reach two debuggers |
| DebuggerExclusion.SurvivalBreaks | src/backtracegenerator.cpp:93-113 | so they do when a debugger outlives its lock: by its DrKonqi's destructor, starting or running, by a reported error, or by a detachment |
| BacktraceGenerator.BacktraceGenerator.Start | src/backtracegenerator.cpp:115-135 | state and signals of start() |
| BacktraceGenerator.BacktraceGenerator.SlotReadInput | src/backtracegenerator.cpp:137-154 | m_output keeps the rest, the parser is fed exactly the complete lines; nothing happens without a process |
| BacktraceGenerator.BacktraceGenerator.ResetProcessAndUnlock | src/backtracegenerator.cpp:175-188 | process and temporary file are gone, an own lock is given back |
| BacktraceGenerator.BacktraceGenerator.SlotProcessExited | src/backtracegenerator.cpp:190-234 | end of a run by exit: everything released, the parser closed, the state by outcome and memory pressure |
| BacktraceGenerator.BacktraceGenerator.SlotOnErrorOccurred | src/backtracegenerator.cpp:236-270 | end of a run by error; nothing without a process |
| BacktraceGenerator.BacktraceGenerator.SetBackendPrepared | src/backtracegenerator.cpp:272-320 | starts, or takes the lock and starts, or waits |
| BacktraceGenerator.BacktraceGenerator.OnLockWatcherFinished | src/backtracegenerator.cpp:297-302 | starts whether or not the wait got the lock |
| BacktraceGenerator.BacktraceGenerator.StartProcess | src/backtracegenerator.cpp:322-336 | the parser is reset, manager and backend are told, the fence is asked |
| BacktraceGenerator.BacktraceGenerator.SetBackendFailedToPrepare | src/backtracegenerator.cpp:477-490 | FailedToPrepare, and the manager is told |
| BacktraceGenerator.BacktraceGenerator.ExitDetached | src/backtracegenerator.cpp:161-169 | a detached process that ignores terminate() is left behind alive, the lock given back, and the run counts as successful |
| BacktraceGenerator.BacktraceGenerator.Destruct | src/backtracegenerator.cpp:93-113 | a running process is ended, or left behind alive if it has not finished in time; an own lock is given back either way |
| BacktraceGenerator.DebuggerManager.OnDebuggerFinished | src/debuggermanager.cpp:60-65 | debuggerRunning is cleared and the backend stops the process again |
| BacktraceGenerator.KCrashBackend.OnDebuggerStarting | src/drkonqibackends.cpp:209-213 | the process runs while debugged |
| TimerLaws.ClosesOnlyWhenQuiet | src/statusnotifier_activationclosetimer.cpp:15-84 | for all timed runs: autoClose never fires while idle or with an activation pending if and only if the activation timeout is shorter, or no service is missing at the start, or the session is idle then |
| TimerLaws.ClosesOnlyAfterFullTimeout | src/statusnotifier_activationclosetimer.cpp:29-48 | for all timed runs: autoClose fires only after a full quiet close timeout if and only if the start is idle, or complete, or two services are missing and the activation timeout is shorter |
| TimerLaws.OneMissingClosesEarly | src/statusnotifier_activationclosetimer.cpp:29-48 | the early close with one missing service |
| TimerProgress.CloseTimerExactly | src/statusnotifier_activationclosetimer.cpp:15-27 | after every signal the close timer runs if and only if the session is quiet, from now on if it was off |
| TimerProgress.SignalsExactly | src/statusnotifier_activationclosetimer.cpp:38-72 | idleness, pending activations and the activation timer after every signal |
| TimerProgress.FiringsExactly | src/statusnotifier_activationclosetimer.cpp:29-82 | the close timer fires once, the activation timer repeats and stops the close timer |
| TimerProgress.QuietSessionsClose | src/statusnotifier_activationclosetimer.cpp:15-48 | in every reachable situation a signal that leaves the session quiet leads to a close, possible from a deadline within one close timeout on and not before |
| TimerProgress.LostServicesActivate | src/statusnotifier_activationclosetimer.cpp:50-75 | a lost service leads to an activation, from the activation timeout on and not before |
| TimerProgress.StuckExactly | src/statusnotifier_activationclosetimer.cpp:15-72 | exactly when a signal leaves no timer running: with several services missing, whenever one comes back |
| TimerProgress.StuckStays | src/statusnotifier_activationclosetimer.cpp:15-72 | then neither timer goes off, however long one waits |
| ActivationCloseTimer.ActivationCloseTimer.Refresh | src/statusnotifier_activationclosetimer.cpp:15-27 | stops, starts or leaves the close timer |
| ActivationCloseTimer.ActivationCloseTimer.Start | src/statusnotifier_activationclosetimer.cpp:29-84 | missing services are counted first, then the close timer starts regardless, then idleness stops it |
| ActivationCloseTimer.MissingExactly | src/statusnotifier_activationclosetimer.cpp:119-127 | as many services are reported lost as are not registered |
| EnvelopeFormat.RoundTrip | src/sentry/lib/sentryenvelope.cpp:30-49 | a reader of header lines and announced lengths recovers all headers and payloads, newlines in them included |
| EnvelopeContents.EverythingIsRead | src/sentry/lib/sentryenvelope.cpp:30-49 | the reader finds the envelope's headers and for every item its payload, its length, and each of its own headers, no more |
| Utf8Scalars.ValidExactly | src/sentry/lib/sentryenvelope.cpp:36 | the UTF-8 in question is exactly the sequences of encoded Unicode scalar values |
| EnvelopeFormat.FirstLineIsHeader | src/sentry/lib/sentrypostman.cpp:75-77 | the first line alone gives the envelope header, whatever the items |
| EnvelopeLimits.RecoveredExactlyWhenText | src/sentry/lib/sentryenvelope.cpp:30-49 | an envelope with any number of items is recovered if and only if every payload is UTF-8 without a byte order mark in front |
| DeliveryLaws.NothingIsLost | src/sentry/lib/sentrypostman.cpp:27-105 | after any history a written envelope with a DSN is unchanged in exactly one of pending and sent, or was removed at 30 days |
| DeliveryLaws.DsnIsRead | src/sentry/lib/sentrypostman.cpp:75-77 | the DSN a postman goes by is the one in the envelope's headers |
| DeliveryLaws.WrittenIsKept | src/sentry/lib/sentrypostbox.cpp:57-66 | from its write on, through any further history, an envelope with a DSN has the content and time of that write in pending or sent, or was removed at least 30 days later |
| DeliveryLaws.SentIsFinal | src/sentry/lib/sentrypostman.cpp:90-104 | what was sent stays as sent and is never posted again |
| DeliveryLaws.PendingCanBeSent | src/sentry/lib/sentrypostman.cpp:51-105 | some continuation of the history has a pending envelope sent if and only if it is in flight, or not yet 30 days old and with a DSN |
| DeliveryLaws.PassIsRun | src/sentry/lib/sentrypostman.cpp:44-49 | one pass over a directory listing is a run of one post per file |
| ReporterLaws.HandedOverIsKept | src/bugzillaintegration/reportinterface.cpp:787-799 | every envelope handed over by maybePickUpPostbox has its DSN and is conserved to the server |
| ReporterLaws.DeliveredHoldsEverything | src/sentry/lib/sentrypostbox.cpp:33-73 | hasDelivered implies that the last written envelope holds every item added so far |
| ReporterLaws.OnlyLateDsnsWait | src/sentry/lib/sentrypostbox.cpp:25-31 | a deliverable envelope is left waiting if and only if its DSN came in after the last hand-over |
| ReporterContents.HandOverExactly | src/bugzillaintegration/reportinterface.cpp:787-799 | an event writes a file if and only if it delivers unconditionally, or sending is wanted, the DSN loaded, an event among the items and something undelivered, all read off the trace |
| ReporterContents.FileContains | src/sentry/lib/sentrypostbox.cpp:33-66 | a reader of a file written at any moment finds the event id, the DSN, and each item added so far with type, length and payload, in order |
| ReporterCalls.CallsAreRun | src/bugzillaintegration/reportinterface.cpp:787-799 | any sequence of calls that keep the methods' contracts leaves the fields and files of one run of all their events |
| ReporterCalls.LastFileHoldsEverything | src/sentry/lib/sentrypostbox.cpp:33-73 | after any such calls, hasDelivered means that the last file on disk holds every item added so far, with type, length and payload |
| SentryDelivery.SentryEnvelope.ToEnvelope | src/sentry/lib/sentryenvelope.cpp:39-49 | the bytes are the encoded headers and items |
| SentryDelivery.SentryEnvelope.AddEvent | src/sentry/lib/sentryenvelope.cpp:51-60 | one more item, and the envelope has an event |
| SentryDelivery.SentryPostbox.Deliver | src/sentry/lib/sentrypostbox.cpp:57-66 | one more file with the whole envelope |
| SentryDelivery.ReportInterface.MaybePickUpPostbox | src/bugzillaintegration/reportinterface.cpp:793-799 | delivers exactly when asked to, ready and not yet delivered |
| SentryDelivery.ReportInterface.AddEventPayload | src/bugzillaintegration/reportinterface.cpp:565-566 | adds the event, then hands over |
| SentryDelivery.ReportInterface.OnDSNsLoaded | src/sentry/lib/sentrypostbox.cpp:25-31 | the DSN goes into the headers, and nothing is handed over |
| SentryDelivery.ReportInterface.AttachSent | src/bugzillaintegration/reportinterface.cpp:679-688 | adds the comment, hands over when ready, and then delivers without asking |
| SentryDelivery.SentryPostman.Run | src/sentry/lib/sentrypostman.cpp:27-50 | each listed file is posted once |
| SentryDelivery.SentryPostman.Post | src/sentry/lib/sentrypostman.cpp:51-92 | removed at 30 days, discarded without DSN, else in flight |
| SentryDelivery.SentryPostman.OnFinished | src/sentry/lib/sentrypostman.cpp:92-104 | moved on success, left alone on error |
| CoreImages.RegionHull | src/data/gdb_preamble/preamble.py:549-559 | lowest start and highest end, both attained; none for no regions |
| CoreImages.RegionIsFound | src/data/gdb_preamble/preamble.py:242-246 | a program counter in a recorded region is found, in its own image when the hulls are disjoint |
| CoreImages.PcIsResolved | src/data/gdb_preamble/preamble.py:242-246 | the image found for a program counter is that of the first mapped file with a build id that spans it; none if no file does |
| SolibLoading.SentryTrace.LoadSolib | src/data/gdb_preamble/preamble.py:216-277 | terminates having visited the frames in order up to the first error |
| SolibLaws.VisitFirstLoads | src/data/gdb_preamble/preamble.py:222-275 | without an error the list is the old one and each new library in order of first appearance |
| SolibLaws.EveryFrameIsLoaded | src/data/gdb_preamble/preamble.py:205-277 | over all threads the list has no duplicates and, on normal return, every frame's library |
| SolibLaws.SucceedsExactlyWhen | src/data/gdb_preamble/preamble.py:238-261 | no exception if and only if each frame's library is loaded, met higher up, or loadable from an image covering the frame |
| SolibLaws.FailsAtFirst | src/data/gdb_preamble/preamble.py:247-261 | a failure is at the first frame that cannot be dealt with, for that frame's reason, after exactly the libraries above it |
| SolibLaws.NoStackExactly | src/data/gdb_preamble/preamble.py:222-234 | only a thread without frames fails without a frame to blame |
| FrameClipping.ClipFrames | src/data/gdb_preamble/preamble.py:293-317 | on the crashed thread exactly the frames up to the last handler or trampoline go, oldest first |
| UnitNames.ServiceRoundTrips | src/coredump/launcher/decode.h:53-79 | a service unit with a random part gives its id back if and only if a lone id does not look launched, or the launcher has no '-' and no '.' and the id a '.' |
| UnitNames.ScopeRoundTrips | src/coredump/launcher/decode.h:53-79 | the same for scope units without '@' |
| UnitNames.LaunchedExactly | src/coredump/launcher/decode.h:74-76 | a name looks launched if and only if a '-' with something in front comes before the first '.' |
| UnitNames.OnlyApps | src/coredump/launcher/decode.h:57-59 | a unit that is not an app's has no service name |
| MarkedServiceUnits.RoundTripsExactlyWhen | src/coredump/launcher/decode.h:53-79 | for all launchers and ids: with '@' in the id it comes back if and only if it repeats the chopped launcher up to the only '@' in there; with '@' in the launcher alone, if and only if it is what chopping leaves in front of that; otherwise as in the next row |
| PlainServiceUnits.PlainServiceRoundTrips | src/coredump/launcher/decode.h:53-79 | without '@' in the names, a service unit without a random part gives its id back if and only if there is a launcher and the id is one or more copies, joined by '-', of what is left of the launcher when chopped itself, and that has no '-' |
| UnitNames.PlainServiceNeverRoundTrips | src/coredump/launcher/decode.h:65-71 | with no launcher such a unit never gives its id back, whatever the id |
| CoredumpTransport.Send | src/coredump/processor/main.cpp:127-139 | records and the rest are the payload, every record is exactly what its write took of at most 8192 bytes, and the loop aborts only on a lost connection |
| CoredumpTransport.Receive | src/coredump/launcher/main.cpp:265-295 | the bytes that fit the segment buffer, appended |
| CoredumpTransport.ExactWhenRecordsFit | src/coredump/launcher/main.cpp:265-295 | reassembly is exact if and only if no record is larger than the buffer |
| CoredumpTransport.Transfer | src/coredump/processor/main.cpp:127-139 | for all partial writes the launcher has a prefix of the payload, and all of it exactly when the sender is through |

## Left out

- ListingRendersEntries: needs frame texts that are at least as long as the gap marker and do not end in it, which gdb's frame lines are.
- SummaryIs: needs the same of the frame texts, and so does AnswerShows.
- The regular expressions of gdb's lines themselves, the macOS branches, JSON text and text decoding.
- The lldb and null parsers, and how slotReadInput recognises lldb's detach line; what it does then is ExitDetached.
- Accessors before the first run, when the parser has no private object and answers defaults.
- m_rawTraceBytes, m_parsedBacktrace, the environment and arguments of the debugger process, and the memory fence's thresholds: carried along without decisions.
- The --keeprunning mode of KCrashBackend and the coredump backend's excavation: their guarantees differ from the modelled mode.
- Breaking of stale locks by QLockFile, and destruction while a lock thread waits.
- The DSN lookup, its cache and the network; the callers that deliver without asking are modelled, but no DSN is promised for their envelopes.
- The event id inside an event payload, which the source inserts into a temporary.
- eu-unstrip images, registers, variables and lock reasons of the preamble.
- decodeUnitName, which nothing calls.
- Bugzilla, wallets, notifications, QML and the rest of the user interface.
