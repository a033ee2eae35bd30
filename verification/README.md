# Flamingo agent: a verified model

A Dafny model of the agent (`agent-rust`) and of its logger child (`logger-child`), with proofs about
what they are relied on for: arguments that survive a Windows command line, logs that rotate without
losing lines, one agent and one child at a time on a fixed cadence, a service that always reports a
legal trace, and two small codecs. `dafny verify dfyconfig.toml` verifies all of it.

## What is modelled

| file | models |
|---|---|
| `Quoting.dfy` | the quoting loop, the reference parser, and one scan that reads a line with or without the CRT's doubled-quote rule |
| `Names.dfy` | file names of a live log and its rotated generations |
| `FileSystem.dfy`, `Disk.dfy` | one log directory: names to inodes, inodes to kind, owner, mode and content; the Unix trust check and `secure_file` on top |
| `Rotation.dfy` | `rotate` and `rotate_if_large` as the movement of a hole through the generations |
| `Writer.dfy`, `Durability.dfy`, `Accounting.dfy`, `Losses.dfy`, `Chunking.dfy` | the rotating writer of `agent.log`: what survives any failures, its byte count and retries, when a line can be lost, and what it computes when nothing fails |
| `LogSizes.dfy`, `AgentLogSize.dfy`, `AgentLogLimit.dfy`, `LateFailures.dfy` | how large `agent.log` gets under failures, and that operations which work take place in the same way ahead of any failures |
| `Cycle.dfy`, `ChildLogSize.dfy`, `ChildLogLimit.dfy`, `ChildLogHistory.dfy` | one collection cycle, and runs of cycles with others meddling in between |
| `AgentLoop.dfy` | the tick loop, its cycle and the child wait as a timed step system |
| `Confinement.dfy`, `Instances.dfy`, `Agents.dfy`, `AgentsExit.dfy`, `AgentsLogs.dfy` | any number of agents on one directory, with crashes: the lock on the inode behind `agent.lock`, and both logs under all of them |
| `Service.dfy` | the Windows service: main thread against control handler |
| `ChildArgs.dfy`, `Resource.dfy` | the child's argument parser; the compiled message table |

**Loops and fields.** Where the program changes things step by step (the quoting loops, the rotation,
the writer, the cycle, the child's parser, the resource writer) the model is a method or a class, and its
`ensures` equates the new state with a function of the old one. The lemmas are about those functions.

**Failures.** A file system carries the fate of its coming operations as a sequence, so a lemma for all
file systems is a lemma for all patterns of failure. A failing operation changes nothing, except that
an append may get a prefix of its bytes to disk; a `secure_file` that fails half-way may have created
the empty file. `rename` is atomic and replaces its target, and an open handle is an inode, which
outlives its name (POSIX.1-2017, System Interfaces, `rename()` and `unlink()`).

**The writer's invariant.** After a rotation whose reopen failed, the writer goes on appending to a file
that is now generation 1, or 2, and so on. `Durability.Newest` says that everything newer than the
handle's file is empty, and that all files are empty once the handle's file has no name any more; this
is what makes the log a suffix of its history under every failure.

**The lock.** `flock` locks an inode, and `agent.lock` is opened by name. `Agents` keeps the two apart: an
agent first opens the name, creating it if it is missing, and later locks what it has open. As long as
nobody deletes the name while an agent has the file open, this system behaves as the one with a single
lock in `Instances` (`Agents.TurnAbstracts`), and what is proved about that one carries over.

**Time and concurrency.** The loop, the agents and the service threads are state machines whose runs are
sequences of atomic steps; the theorems quantify over all runs. The unbiased `select!` is the presence
of both steps when both are ready. A cycle's overhead is all its time that is not spent waiting for
its child.

## Where the code and its comments differ

- `agent-rust/src/rotation.rs:5` gives `(keep + 1) * max_bytes` as the bound of a log. For `agent.log`, over
  all failures with at most `f` failed rotations in a row and lines of at most `M` bytes, it holds if and
  only if nothing is written, or `M` is at most `max_bytes` and `f` is 0
  (`AgentLogLimit.AgentLogWithinLimitIff`): a longer line is written whole into an empty file, and after a
  failed rotation the line goes into the full one. For `child.log`, which is checked only between children,
  it holds if and only if children append nothing, or at most one byte each and `f` is 0
  (`ChildLogLimit.ChildLogWithinLimitIff`). What holds instead is `AgentLogSize.AgentLogBound` and
  `ChildLogSize.ChildLogBound`; both are attained by all files at once. The corresponding results for runs
  in which nothing fails at all are `Chunking.LogStaysWithinBoundIff` and
  `ChildLogLimit.FaultFreeChildLogWithinLimitIff`.
- `agent-rust/src/rotation.rs:81-83` says that after a failed rotation or reopen writing continues "rather
  than losing lines". `Losses.NeverLosesLineIff` gives the exact condition before a write under which,
  whatever fails, what the write gets to disk is the new end of the log, and `Losses.FailuresLoseLine` a
  run that loses a line reported as written, for every limit and every `keep`. While at most `keep`
  rotations in a row have failed nothing that got to disk is lost (`Durability.WriteKeepsIntact`).
- "The next write tries again" (same comment) fails when the append fails too, because the size is then
  not advanced: `Accounting.TriesAgainIff`, `Losses.FailuresForgetRetry`.
- `agent-rust/src/app.rs:53-54` says that a second instance never writes a line into the first one's logs.
  That rests on nobody deleting `agent.lock`: `Agents.ExclusiveIff`, `Agents.UnlinkAdmitsSecond`.
- The terminal report of `agent-rust/src/service/windows.rs:135-136` need not be the last one: a stop that
  is delivered around a panic can report StopPending after Stopped. `Service.LateReportIff` says exactly
  when.

## Model

| member | source | states |
|---|---|---|
| Quoting.QuoteArg | agent-rust/src/platform/winquote.rs:7-36 | the backslash-counting loop writes what `Quoted` specifies, the function the round trip is proved about |
| Quoting.QuotedIs | agent-rust/src/platform/winquote.rs:7-36 | an argument is left untouched if and only if it is not empty and free of spaces, tabs, line feeds, vertical tabs and quotes; otherwise it is written in quotes with one backslash in front of every quote and of every backslash that only backslashes separate from a quote or the end |
| Quoting.JoinedBySpaces | agent-rust/src/platform/winquote.rs:38-44 | a line of one argument is that argument, quoted; otherwise, wherever the line is cut, there is one space in between |
| Quoting.ParseCommandLine | agent-rust/src/platform/winquote.rs:95-144 | the peeking, mode-switching parser computes the character-by-character scan without the doubled-quote rule |
| Quoting.TailScans | agent-rust/src/platform/winquote.rs:15-36 | the loop's invariant: scanning what is still to be written gives the pending backslashes and the unread text, and leaves the quoted region |
| Quoting.RoundTrip | agent-rust/src/platform/winquote.rs:38-44 | parsing the joined command line of any list of strings gives back that list, under either reading |
| Quoting.RoundTripAfterProgram | agent-rust/src/platform/winquote.rs:83-84 | the same behind a program name and a space |
| Quoting.ReadingsAgreeIff | agent-rust/src/platform/winquote.rs:90-94 | on any line the CRT reading yields one more character per bare `""` inside a quoted region, counted on the line itself, so the readings agree if and only if there is none |
| Quoting.QuotingEmitsNoPair | agent-rust/src/platform/winquote.rs:90-94 | no line this module produces holds a bare `""` in a quoted region, so the readings agree on all of them |
| Quoting.DoubledQuotesRead | agent-rust/src/platform/winquote.rs:90-92 | what the rule is: every quote that is doubled inside a quoted region is read back by the CRT and vanishes under the plain reading |
| Names.GenNameInjective | agent-rust/src/rotation.rs:25-35 | `rotated_name` is injective in the index and never returns the live name |
| Names.RotatedNameIs | agent-rust/src/rotation.rs:23-35 | `stem.ext` with index `i` becomes `stem`, dot, `i` in decimal digits without leading zeros, dot, `ext` |
| Names.RotatedNameWithoutExtension | agent-rust/src/rotation.rs:23-35 | a name without an extension, or that only starts with a dot, gets a dot and the index appended |
| Names.NamesInDirectory | agent-rust/src/config.rs:67-68 | the files of a directory: `agent.log`, `agent.1.log` and so on, `child.log`, `child.1.log` and so on, `agent.lock` |
| Names.FamiliesDisjoint | agent-rust/src/config.rs:67-68 | the families of `agent.log` and `child.log` and the lock file are pairwise disjoint |
| FileSystem.SecureFileEffect | agent-rust/src/platform/unix.rs:112-126 | `secure_file` may create an empty file of ours or set the mode, never touches content or another file; success means a regular file of ours with mode 0600 |
| FileSystem.FaultFreeSecureSucceedsIff | agent-rust/src/platform/unix.rs:72-89 | when nothing fails by itself it succeeds exactly on a missing file or a regular file of ours |
| FileSystem.RefusedIff | agent-rust/src/platform/unix.rs:72-96 | it refuses links and files of other users, reports these as untrusted and nothing else |
| FileSystem.LockedIsPrivate | agent-rust/src/platform/unix.rs:112-126 | the mode it sets lets the owner read and write and nobody else do anything |
| FileSystem.AppendLands | agent-rust/src/rotation.rs:126 | an append that works adds the whole line, one that fails its first bytes, to the handle's file alone |
| Rotation.RotateLog | agent-rust/src/rotation.rs:41-65 | the descending loop of renames has the effect and the error of `Rotate` under every pattern of failures |
| Rotation.RotateOutcome | agent-rust/src/rotation.rs:41-65 | success is the exact shift: generation `i + 1` is the old `i`, the live name is free, the file at `keep` is gone, all other names and all inodes are unchanged; failure leaves a hole above the live file; without faults only a directory at `keep` makes it fail |
| Rotation.FailedRotationKeepsLiveFile | agent-rust/src/rotation.rs:49-64 | any error leaves the live file in place with its content |
| Rotation.RotateUnlinksAtMostOldest | agent-rust/src/rotation.rs:37-40 | no rename overwrites a file: at most the one at `keep` goes, the others stay or move up by one, those above `keep` are not touched |
| Rotation.RotateTouchesOwnFamilyOnly | agent-rust/src/rotation.rs:41-65 | rotating one log touches neither the other log's files nor the lock file |
| Rotation.SlideConserves | agent-rust/src/rotation.rs:41-65 | what a rotation takes from the log, successful or not, is exactly the content of generation `keep` or nothing |
| Writer.OpenWriter | agent-rust/src/rotation.rs:94-103 | opens the live file, locked, and starts from its length; each step may fail |
| Accounting.FaultFreeOpenIff | agent-rust/src/rotation.rs:94-103 | when nothing fails, a log can be opened if and only if nothing or a regular file of ours has its name, an existing log included; the handle is on the file the name leads to, with its old content and its length as the count |
| Writer.RotatingWriter.RotateNow | agent-rust/src/rotation.rs:105-110 | rotate, reopen, reset; any error leaves handle and size as they were |
| Writer.RotatingWriter.Write | agent-rust/src/rotation.rs:121-129 | one write: a due rotation whose error is dropped, the append, and the size advanced only on success |
| Durability.PrepareOutcome | agent-rust/src/rotation.rs:122-125 | the rotation before a write takes only old records from the front of the log; it ends on a fresh, empty, locked live file, or with the same handle at most one place further back |
| Durability.WriteKeepsIntact | agent-rust/src/rotation.rs:81-83 | every write keeps the log a suffix of its history, and while at most `keep` rotations in a row have failed what the write got to disk is the log's new end |
| Durability.LogIsSuffixOfHistory | agent-rust/src/rotation.rs:120-129 | over every run and every pattern of failures, partial appends included, generations `keep` down to 1 and the live file concatenate to a suffix of everything appended, in order |
| Losses.PlaceOfRun | agent-rust/src/rotation.rs:81-83 | in every state of a run everything newer than the handle's file is empty, and the file is no further back than rotations have failed in a row |
| Losses.NeverLosesLineIff | agent-rust/src/rotation.rs:81-83 | whatever fails, what a write gets to disk is the new end of the log, if and only if, before it, the handle's file has a name below the oldest generation's, or that name itself and the write is not due to rotate |
| Losses.FailuresLoseLine | agent-rust/src/rotation.rs:81-83 | for every limit, every `keep` and every directory without generations, failures that make a freshly opened writer lose a line it reports as written, `keep + 1` of them in a row |
| Accounting.SizeIsExact | agent-rust/src/rotation.rs:92-129 | with all-or-nothing appends `size` is the length of the file behind the handle in every state a run can reach, half-failed rotations included |
| Accounting.TriesAgainIff | agent-rust/src/rotation.rs:81-83 | after a failed rotation every possible next line tries again if and only if the line was written or the file was at the limit already |
| Accounting.RetriesUntilDone | agent-rust/src/rotation.rs:81-83 | under that condition every line from the failed one on tries again until one rotation succeeds |
| Losses.FailuresForgetRetry | agent-rust/src/rotation.rs:126-127 | for every limit of at least two bytes, failures after which the next write of a freshly opened writer does not try again |
| Accounting.DoneMeansFreshLiveFile | agent-rust/src/rotation.rs:105-110 | a rotation that succeeds leaves a live file of ours, mode 0600, holding just the new line, with the handle on it |
| Accounting.FaultFreeRotationSucceeds | agent-rust/src/rotation.rs:105-110 | without further faults the next due rotation succeeds, unless a directory has the name to be deleted |
| Chunking.ChunksAreGreedy | agent-rust/src/rotation.rs:121-128 | the chunks written divide the lines in order, each closed only by a line that did not fit, each line joining if it fits |
| Chunking.GreedyIsUnique | agent-rust/src/rotation.rs:121-128 | such a division is unique, so it determines the files |
| Chunking.FaultFreeWriterIsGreedy | agent-rust/src/rotation.rs:92-129 | when nothing fails, a log without files ends up as exactly its newest greedy chunks: live file the last, generation `i` the `i`-th before it up to `keep`, absent if there is none; no record straddles two files |
| Chunking.AgentLogBounds | agent-rust/src/rotation.rs:121-128 | when nothing fails, no file is larger than the limit or the longest line, the log at most `keep + 1` times that; once all files exist they hold one byte more than the limit for every two of them, at least |
| Chunking.LogStaysWithinBoundIff | agent-rust/src/rotation.rs:5 | when nothing fails, the log stays within `(keep + 1) * max_bytes` in all runs with lines of at most `M` bytes if and only if `M` is at most `max_bytes` |
| Chunking.FilesStayWithinLimitIff | agent-rust/src/rotation.rs:17 | when nothing fails, every single file stays within `max_bytes` throughout one run if and only if no line of that run is longer |
| AgentLogSize.AgentLogBound | agent-rust/src/rotation.rs:121-128 | over every pattern of failures with all-or-nothing appends, lines of at most `M` bytes and at most `f` failed rotations in a row: no file exceeds the limit or the longest line by more than `f * M` bytes, and the log stays within `keep + 1` times that |
| AgentLogLimit.AgentLogBoundIsAttained | agent-rust/src/rotation.rs:121-128 | for every limit, `keep`, `f` and `M` of at least one, some run fills all files to exactly that bound at once |
| AgentLogLimit.AgentLogWithinLimitIff | agent-rust/src/rotation.rs:5 | over all such failures the log stays within `(keep + 1) * max_bytes` in all such runs if and only if nothing is written, or `M` is at most `max_bytes` and no rotation fails |
| Cycle.RunCycleWith | agent-rust/src/cycle.rs:26-90 | secure, rotate if large, secure again, spawn, with every early return, equal to `RunCycle` |
| Cycle.LockedAtSpawn | agent-rust/src/cycle.rs:37-52 | in all three rotation branches the child finds its log existing, a regular file of ours, mode 0600 |
| Cycle.FaultFreeCycleSpawnsIff | agent-rust/src/cycle.rs:39-52 | a child is spawned if and only if sampling worked and the log could be secured; a rotation that fails never stops the cycle; the branch taken depends on the log's size and on what has the name `keep` alone |
| Cycle.CycleFailsIff | agent-rust/src/cycle.rs:34-53 | under any failures a cycle fails, and spawns nothing, if and only if sampling or one of the two attempts to secure the log failed |
| Cycle.LockedAtEverySpawn | agent-rust/src/cycle.rs:37-59 | over every run, with failures and with others deleting, changing or replacing the live file between cycles, each spawn finds it locked, and every generation the run created is locked at the end |
| ChildLogLimit.FaultFreeSizes | agent-rust/src/cycle.rs:44-59 | the exact size of every file after a cycle without failures: a rotation moves all sizes up by one if the live file had reached the limit before the child, and the child's bytes come on top |
| ChildLogSize.ChildLogBound | agent-rust/src/rotation.rs:68-79 | if each child appends at most `L` bytes and at most `f` rotations in a row fail, no file exceeds `max_bytes - 1 + (f + 1) * L` and the log does not exceed `keep + 1` times that; a cycle that finds the log below the limit ends a streak |
| ChildLogLimit.ChildLogBoundIsAttained | agent-rust/src/rotation.rs:68-79 | for every limit, `keep`, `f` and `L` of at least one, some run fills all files to exactly that bound at once, for `f = 0` also when nothing fails at all |
| ChildLogLimit.ChildLogWithinLimitIff | agent-rust/src/rotation.rs:5 | over all failures with at most `f` failed rotations in a row the child's log stays within `(keep + 1) * max_bytes`, and each file within `max_bytes`, in all runs with at most `L` bytes per child if and only if `L` is 0, or `L` is 1 and no rotation fails |
| ChildLogLimit.FaultFreeChildLogWithinLimitIff | agent-rust/src/rotation.rs:5 | when nothing fails, the same if and only if `L` is at most one |
| ChildLogHistory.ChildLogIsSuffixOfHistory | agent-rust/src/cycle.rs:37-59 | over every run of cycles and every pattern of failures the child's log is a suffix of everything ever appended |
| AgentLoop.OneChildAndCleanEnd | agent-rust/src/agent.rs:20-41 | whatever mix of successes, errors, panics and child outcomes occurs: at most one child, the loop ends only because of a cancellation, and then no child is alive |
| AgentLoop.CyclesEndAlike | agent-rust/src/agent.rs:33-37 | success, error and panic of a cycle make no difference to the loop: whenever a cycle can end, it can end with any of them, back at the select |
| AgentLoop.AnyCoursesRun | agent-rust/src/agent.rs:24-38 | for every sequence of cycle results and child outcomes some uncancelled run takes its cycles through exactly these, on the grid, and starts the next one |
| AgentLoop.OutcomesAreTrue | agent-rust/src/child.rs:90-101 | a child times out exactly a timeout after its spawn; its wait is cancelled, and the loop stops, only after a cancellation |
| AgentLoop.NeverTooClose | agent-rust/src/agent.rs:27-32 | consecutive cycles never start closer together than the period, however long they take |
| AgentLoop.ExactCadenceIff | agent-rust/src/agent.rs:27-38 | all runs whose cycles spend at most `o` on anything but their child start cycle `k` at exactly `k` periods, timeouts included, if and only if `o` and the timeout fit into the period |
| AgentLoop.AcceptedIff | agent-rust/src/config.rs:52-57 | a timeout in whole seconds is accepted if and only if a second of overhead still leaves every cycle on time |
| AgentLoop.MoreOverheadDrifts | agent-rust/src/agent.rs:27-38 | with any more overhead some run starts its second cycle late |
| AgentLoop.BoundedShutdown | agent-rust/src/agent.rs:30-39 | with overheads below a period, for either choice of the select at most one cycle starts after the cancellation, and less than twice the overhead bound passes until the end |
| AgentLoop.MoreOverheadKeepsGoing | agent-rust/src/agent.rs:30-39 | a period is the limit: with a period of overhead any number of cycles can start after the cancellation |
| AgentLoop.ShutdownProgresses | agent-rust/src/child.rs:90-101 | a cancelled loop always has a step to take until it has ended, and each brings the end nearer |
| AgentLoop.EndsAtOnce | agent-rust/src/child.rs:90-101 | once cancelled the loop can end at once, with no time passing, no further cycle and no child ending by itself |
| Agents.StepSane | agent-rust/src/platform/unix.rs:137-160 | every step of every agent, rotations of both logs included, keeps open lock files, locks and stages in agreement and leaves the name of the lock file alone |
| Agents.ExclusiveIff | agent-rust/src/platform/unix.rs:135-160 | while one agent holds the lock, no agent that arrives or waits can get it too if and only if every lock file that is open is still the one that the name leads to |
| Agents.UnlinkAdmitsSecond | agent-rust/src/platform/unix.rs:137-160 | from every directory in which nothing fails, deleting the name while the lock is held lets a second agent in |
| Agents.TurnAbstracts | agent-rust/src/platform/unix.rs:135-160 | while the lock file is left alone the system with locks on inodes does what the one with a single lock does |
| Agents.OneAgentAtATime | agent-rust/src/app.rs:51-97 | over all interleavings with crashes and failures in which the lock file is left alone: at most one holder; every line of either log is written by the holder, `agent.log` within the log's own interval inside the lock's; a refused agent writes neither log and exits with 5 |
| Agents.LockIntervalsDisjoint | agent-rust/src/platform/unix.rs:128-160 | between two acquisitions in such a run the first holder has released the lock or crashed |
| AgentsExit.ExitCodes | agent-rust/src/app.rs:184-210 | an agent that has exited did so with 5 if and only if it was refused the lock, with 0 if and only if its loop ended, otherwise with 1; it has released its lock if it had one and closed its log if it had opened it |
| AgentsExit.SecondIsRefused | agent-rust/src/platform/unix.rs:135-160 | while the lock is held, another agent is refused at once, exits with 5 and changes nothing |
| AgentsExit.AgentStarts | agent-rust/src/app.rs:43-98 | where nothing is in the way and nothing fails an agent gets as far as its loop, with its log open |
| AgentsExit.AgentWrites | agent-rust/src/app.rs:57-63 | an agent with its log open can always write a line, which gets there whole when nothing fails |
| AgentsExit.AgentSpawns | agent-rust/src/app.rs:89-94 | a looping agent without a child can spawn one, on a locked log, when nothing fails and the log can be secured |
| AgentsExit.ChildWrites | logger-child/src/main.cpp:99-105 | a child writes whole lines to its log for as long as it is there |
| AgentsExit.AgentCanLeave | agent-rust/src/app.rs:43-98 | no agent is ever stuck: whatever has failed, it can get to its exit by its own steps and then holds nothing |
| AgentsExit.AgentCanCrash | agent-rust/src/platform/unix.rs:128-133 | an agent can crash at any time, and the kernel then has its lock back and the directory is as it was |
| AgentsExit.SuccessMeans | agent-rust/src/app.rs:55-69 | each step that succeeds has done what it is for: the log is open on the file its name leads to, and the child's log is locked before the loop starts and whenever a child is spawned |
| AgentsLogs.BothLogsAreSuffixesOfHistory | agent-rust/src/app.rs:51-97 | over all such runs, with writes to `agent.log`, cycles, children and restarts interleaved, both logs are at every moment suffixes of everything ever appended to them |
| Service.ShapeOfReading | agent-rust/src/service/windows.rs:92-167 | the automaton the proofs use gives a trace a reading if and only if the trace has that shape: StartPending, optional Running, StopPendings, Stopped |
| Service.ServiceTrace | agent-rust/src/service/windows.rs:71-168 | every finished run reported a complete trace with the exit code of its ending, then nothing or, after a panic only, one late StopPending |
| Service.LateReportIff | agent-rust/src/service/windows.rs:79-86 | when a panic has been caught, no continuation reports anything after Stopped if and only if the last status told is not Running |
| Service.LateReportReachable | agent-rust/src/service/windows.rs:124-137 | a panic can be caught while it still is |
| Service.NothingAfterStopped | agent-rust/src/service/windows.rs:135-167 | without a panic nothing follows Stopped and every earlier trace is a legal beginning |
| Service.ExitCodesAndEvents | agent-rust/src/service/windows.rs:106-166 | every finished run reports exactly: 0 and event 2 if its loop was ended by a cancellation, 1 and event 3 if its bootstrap failed, 2 and event 4 if it panicked, 3 and event 5 if its arguments did not parse |
| Service.StartedWhenBootstrapped | agent-rust/src/service/windows.rs:124-133 | Running and event 1 take a bootstrap that works; a run that was asked to stop reported both, a failed bootstrap or bad arguments neither |
| Service.ServiceProgresses | agent-rust/src/service/windows.rs:71-168 | every run comes to an end, and until the service has stopped there is a step to take; a loop that nobody has asked to stop can be asked |
| ChildArgs.Parse | logger-child/src/main.cpp:58-81 | the index loop over `argv` and the checks after it leave the values and the error message of `Parsed` |
| ChildArgs.AcceptsExactly | logger-child/src/main.cpp:58-81 | accepted are exactly the even-length lists of known flag and value whose last `--utc` and `--rss-bytes` values are not empty; the result is each flag's last value |
| ChildArgs.ErrorsExactly | logger-child/src/main.cpp:68-76 | the error names the first argument in flag position that is not a known flag with a value; if there is none it says what is required |
| ChildArgs.RecoversAgentValues | agent-rust/src/child.rs:49-59 | the child recovers the agent's values in whatever order the three pairs arrive |
| ChildArgs.RecoversBuildArgs | agent-rust/src/child.rs:49-59 | in particular from the agent's own list: time, memory, log, in this order |
| Resource.WriteResFile | agent-rust/build.rs:64-73 | empty resource, header, data, padding to 4 bytes |
| Resource.WriteMessageTable | agent-rust/build.rs:37-60 | the table of one block and an entry per ID |
| Resource.ResFileReadsBack | agent-rust/build.rs:62-87 | a reader that follows size fields and alignment gets back exactly the empty resource and one message table with the data, type, name, language, flags and versions as documented, all bytes used, if and only if the data is shorter than 2^32 bytes |
| Resource.PaddingIsZero | agent-rust/build.rs:70-71 | the file ends at a multiple of 4, with less than 4 bytes of padding, all zero |
| Resource.EveryIdResolves | agent-rust/build.rs:35-60 | every ID from 1 to 5 resolves to the template, no other ID to anything |
| Resource.EveryEventResolves | agent-rust/src/service/eventlog.rs:28-37 | so every event that the service reports has its text |
| Resource.EntriesPadded | agent-rust/build.rs:40-48 | entries are padded with zeros to the length they give |

## Left out

- The Win32 layer (security descriptors, tokens, job objects, registry, event source): its behaviour is in the operating system; the Unix layer stands for "secure".
- `run_loop`, `run_child`, `run_agent_blocking` and `run_service` as methods: they run concurrently or without end, so they are step systems here; what each holds in local variables is the state.
- Installing and removing the service and polling its state (agent-rust/src/service/windows.rs): driven by the SCM's answers.
- tokio's timer tolerance, clap, tracing and chrono: ticks are exact, a killed child is gone at once, the death of the agent ends its child, a dropped log guard has written all lines.
- A panic of the main thread outside the service's `catch_unwind`, and in an interactive agent: counts as a crash.
- Paths that are not valid Unicode, whose lossy conversion can merge names; names here are sequences of characters.
- Generations that are links or dangling, hard links, and an `exists()` that fails and answers no: it answers truthfully here.
- Overflow of `size + len` in 64 bits: sizes are unbounded.
- Appends that fail half-way in the size results: `size` is then not advanced, so `Accounting.SizeIsExact` and the bounds on `agent.log` assume all-or-nothing appends. The suffix results allow them.
- A `flush`, which has nothing to do, and the interruption of an append by a signal.
- What others do to the directory: between cycles they may change the live child log (`Cycle`), at any time they may delete the lock file (`Agents`); nobody else touches the family of `agent.log`.
- The order of a cycle's own operations against its agent's log writes: in `Agents` preparing a cycle is one step, and agents that share a directory share owner, limit and `keep`.
- Renaming a directory or onto one: the latter fails, the former succeeds like a file's.
- The umask: a child that has to create its log gets mode 0644.
- `secure_dir`: one branch, a step that may fail in `Instances`.
- Failing status calls and a missing event log in the service: both succeed.
- The child's privilege check and the line it composes, RSS sampling and the timestamp: nothing to prove beyond one expression.
- Elevation, exit code mapping of the relaunch, `cli.rs`, `main.rs`, `logging.rs`, install scripts and build files.
