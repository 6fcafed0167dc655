# Verified models of the measurement platform's protocols

This project models, in Dafny 4.11, the parts of the platform whose correctness depends on
interleaving, on unbounded runs or on arithmetic, and proves what they promise:

- the Go SDK's admission control: token buckets, the per-client table with eviction, the byte
  budget, the two concurrency gates and the two transfer routes;
- the agent: run assignment with its memory of finished runs and its four slots, the bounded
  outbound channel, the executor's frames and the artifact's per-case counts;
- the benchmark orchestrator: the seeded matrix and the order it is run in, the automatic
  reruns, the tester lock;
- the endpoint: the UDP throughput service and its CRC-32;
- the order-statistic confidence intervals used by the agent and by the trend report.

`dafny verify dfyconfig.toml` checks everything.

## How it is organised

Code that updates fields or arrays in place is a class or a method with loops, proved against
specification functions; laws are lemmas about those functions. Code whose difficulty is the
interleaving of atomic operations (the gates, the channel, run assignment, the tester lock) is a
step machine: `Enabled` and `Apply` give one operation, `Legal` and `Play` a run of any length,
`Reachable` the states that runs lead to. Every law about such a machine holds in every reachable
state. Floating-point values are reals, the square root is given by its defining property, clocks
are integers or reals and may run backwards where callers read them before taking the lock.
Text, JSON, processes, sockets and SQL appear only as the events they deliver.

| file | models |
|---|---|
| `TokenBucket`, `IpLimiter`, `LimiterRuns`, `ByteBudget`, `RetryAfter` | sdk/go/limits.go |
| `SdkConfig`, `Admission`, `AdmissionProgress`, `Routes` | sdk/go/laghound.go, sdk/go/routes.go |
| `RecentRuns`, `RunProtocol`, `RunHistory`, `RunProgress` | src/Networker.Agent/AgentWorker.cs |
| `OutboundChannel`, `OutboundDelivery` | src/Networker.Agent/RawWebSocketClient.cs |
| `InvocationDeadline`, `RunExecutor`, `RunFrames`, `RunOutcomes`, `RunReading`, `RunArtifact`, `RunExamples` | src/Networker.Agent/RunExecutor.cs |
| `ArtifactBuilder` | src/Networker.Agent/BenchmarkArtifactBuilder.cs |
| `SeededShuffle`, `ShuffleDraws`, `CaseMatrix`, `AutoRerun`, `RerunEstimate` | benchmarks/orchestrator/src/config.rs, main.rs |
| `TesterLock` | benchmarks/orchestrator/src/tester_state.rs |
| `UdpWire`, `UdpDownload`, `UdpUpload`, `UdpService` | src/Networker.Endpoint/UdpThroughputService.cs |
| `Crc32`, `CrcValues` | src/Networker.Endpoint/Crc32.cs |
| `MedianInterval` | scripts/benchmark-trend.py, src/Networker.Agent/BenchmarkArtifactBuilder.cs |
| `Counting`, `Occurrences`, `Options`, `Products` | shared vocabulary |

## What the proofs found

Where a promise holds only under a condition, the condition is proved exact or a general
counterexample is proved beside it.

- At-most-once execution needs two things, in every run (`StartsAreFarApart`). No assignment may
  overlook a finish of its run, which happens exactly if one is recorded between the check against
  finished runs and the insertion into the in-flight table (`OverlooksIff`,
  `FinishBetweenChecksRestarts`). And the run's id must not have been cancelled: `cancel_run`, and
  `CancelAllRuns` on shutdown or disconnect just the same, free the id before its run task has ended
  (`CancelThenAssignDuplicates`).
- Progress frames come once per ten successes and once per ten failures, not "every 10 attempts" as
  the executor's comments say; the two agree exactly if the remainders sum to less than ten
  (`ProgressFrameCount`), and five of each are a run in which they do not (`FewerProgressFrames`).
  The code is followed.
- `ExecuteAsync` says it never throws. It throws exactly when the deadline cannot be represented
  (`DeadlineThrowsIff`), or when, after invocations that complete, reading a tester's output fails or
  an attempt to be re-emitted is not an object (`ExecutorThrowsIff`, `BrokenPipeThrows`,
  `NonObjectThrows`). The run task then sends the terminal frame.
- A cancellation between the granting of the slot and the reading of the token disposes the token
  source, and reading it throws before the executor is entered. There is still exactly one
  `run_finished`, but no `run_started` (`ExactlyOneTerminal`).
- Coming back after Retry-After is accepted exactly if no competing transfer has opened and exhausted
  a new window meanwhile; one is enough (`RetryAfterIsExact`, `OneTakeRefusesAgain`).
- The handler keeps its two limits in 32 bits and its window in nanoseconds. A limit whose lower 32
  bits are not a positive 32-bit number, 2^31 being the least, passes the configuration and then
  refuses every request (`Configure`, `LimitsThatDoNotSurvive`, `NobodyIsLetIn`).
- A timeout within 999 ms of 2^32 wraps to one second (`DeadlineCoversWorkloadIff`).
- The number of rerun steps announced before a run bounds it if the last planned repeat of every case
  works. If only first repeats work and nothing ever becomes good enough, every run of several planned
  repeats goes past it (`RunLanguages`, `RunPastTheEstimate`).
- Two languages whose names contain `|` can share a grouping key, and then one of them is never
  executed (`ExecutedIsPermutationIff`, `BarsCanHideALanguage`).
- A client of the tester lock that loses a race with a release is told `NotIdle` about an idle
  tester (`RacingReleaseMisleads`), and an unconditional `force_release` under a holder lets a second
  holder in (`ForcedReleaseAdmitsASecondHolder`).
- The download's chunk count is right exactly up to 2^31 - 1400 bytes (`TotalSeqsExactIff`).
- The low-priority mark is exceeded by one frame less than there are concurrent senders, because
  check and write are two operations (`LogBoundIsAttained`); the most a window can be charged
  beyond the byte budget is exact for every configuration (`BudgetNeverExceeds`, `OvershootIsAttained`).
- One reply that cannot be sent ends the UDP service for all sources (`EndsIff`).
- A table capacity of zero or less still keeps one client (`ReplayIsBounded`).
- Against a negative previous median the trend report's red and green are exchanged
  (`VerdictAgainstNegativeBase`); against zero the division fails.

## Model

| member | source | states |
|---|---|---|
| `TokenBucket.Bucket.constructor` | sdk/go/limits.go:16-18 | a new bucket is full at its creation time |
| `TokenBucket.Bucket.Allow` | sdk/go/limits.go:20-34 | in-place refill, cap and charge compute the decision and the next state of the specification |
| `TokenBucket.TokensStayWithinBurst` | sdk/go/limits.go:20-34 | tokens stay in [0, burst] over every run, whatever order the timestamps arrive in |
| `TokenBucket.LastIsClock` | sdk/go/limits.go:20-28 | `last` is the running maximum of the timestamps, so a late timestamp never turns the clock back |
| `TokenBucket.GrantsArePaidFor` | sdk/go/limits.go:20-34 | between any two points of a run, grants are at most the burst plus rps times the advance of `last` |
| `TokenBucket.TokensAreLeastSlack` | sdk/go/limits.go:20-34 | the refilled bucket holds exactly the least slack of all windows ending now |
| `TokenBucket.GrantedIffEveryWindowAllows` | sdk/go/limits.go:20-34 | exact law: a request is granted if and only if every window ending at it stays within burst + rps * length |
| `TokenBucket.OneIntervalRefillsAToken` | sdk/go/limits.go:20-34 | one interval of 1/rps is enough for a grant |
| `TokenBucket.SpacedClientNeverDenied` | sdk/go/limits.go:20-34 | in-order requests at least 1/rps apart are never denied |
| `IpLimiter.Limiter.constructor` | sdk/go/limits.go:69-76 | a new table is empty and well linked |
| `IpLimiter.Limiter.Allow` | sdk/go/limits.go:78-97 | map and list updated in place stay in bijection and give the decision and the recency-ordered table of the specification |
| `IpLimiter.Limiter.EvictOldest` | sdk/go/limits.go:85-92 | evicting the back of the list drops exactly the least recently used entry |
| `IpLimiter.TouchKeepsUnique` | sdk/go/limits.go:78-97 | a request never duplicates an address |
| `LimiterRuns.ReplayIsBounded` | sdk/go/limits.go:85-92 | the table never holds more than maxEntries clients, or one if maxEntries is below one |
| `LimiterRuns.ReplayIsUnique` | sdk/go/limits.go:78-97 | in every run each client has at most one bucket |
| `LimiterRuns.TableIsMostRecent` | sdk/go/limits.go:53-97 | after any trace the table lists exactly the most recent clients, most recent first |
| `LimiterRuns.EvictionNeverStricter` | sdk/go/limits.go:78-97 | on every trace, at every prefix, each client has at least the grants of a limiter that never evicts |
| `LimiterRuns.SameDecisionsWithFewClients` | sdk/go/limits.go:78-97 | with at most maxEntries distinct clients every decision equals that of a limiter that never evicts |
| `LimiterRuns.SpacedClientAlwaysAllowed` | sdk/go/limits.go:78-97 | no traffic of others makes the table deny a client that keeps 1/rps between its requests |
| `ByteBudget.Budget.constructor` | sdk/go/limits.go:110-112 | a new budget starts its window unused |
| `ByteBudget.Budget.Take` | sdk/go/limits.go:116-133 | rolling, reserving or refusing as specified; a refusal names the least whole number of seconds until the window is over |
| `ByteBudget.Budget.Add` | sdk/go/limits.go:137-141 | adds bytes to the window that is current at the time |
| `RetryAfter.RetryAfterIsExact` | sdk/go/limits.go:116-141 | whatever others take and add meanwhile, coming back after Retry-After is accepted if and only if nobody has opened and exhausted a new window by then; a whole second earlier is refused while nobody has opened one |
| `RetryAfter.WindowHoldsDemand` | sdk/go/limits.go:119-131 | a window opened by a take starts at its time and holds everything asked of it until it is full |
| `RetryAfter.SameWindow` | sdk/go/limits.go:119-122 | while nobody finds the window over it stays, and its bytes never shrink |
| `RetryAfter.OneTakeRefusesAgain` | sdk/go/limits.go:119-131 | one competing take is enough to have the returning caller refused again |
| `Admission.ConcurrencyLimits` | sdk/go/laghound.go:345-356 | over every interleaving: holders within both limits, each counter is its holders plus pending undos, both are zero when nobody is active |
| `Admission.BudgetOvershoot` | sdk/go/limits.go:116-141 | over every interleaving used plus in-flight uploads times the cap stays below bytes + maxTransfers * cap |
| `Admission.BudgetNeverExceeds` | sdk/go/limits.go:116-141 | over every interleaving and for every configuration used is at most bytes - 1 + the larger cap + one upload cap for each further transfer that can run at once |
| `Admission.OvershootIsAttained` | sdk/go/routes.go:118-177 | for every configuration a run reaches exactly that |
| `Admission.GatesStep` | sdk/go/laghound.go:458-464 | every atomic operation keeps the gate invariants, refused requests and panics included |
| `AdmissionProgress.LetInIff` | sdk/go/laghound.go:345-356 | a request passes the first gate exactly if fewer than maxConcurrent are active, the second exactly if fewer than maxTransfers are counted |
| `AdmissionProgress.AllCanLeave` | sdk/go/laghound.go:458-464 | every operation but an arrival brings its request nearer to its end and each active request has one to do: all can leave, and both gates are then empty |
| `AdmissionProgress.OnlyItsRequest` | sdk/go/routes.go:118-177 | an operation leaves all other requests alone, and only the budget operations touch the budget |
| `AdmissionProgress.BudgetDecides` | sdk/go/routes.go:143-177 | an upload drains exactly if the budget accepts it, and what it has drained is charged in full |
| `SdkConfig.Configure` | sdk/go/laghound.go:200-258 | which configurations are refused, and exactly when an accepted one is usable: limits that survive the conversion to 32 bits, a window that survives the one to nanoseconds |
| `SdkConfig.LimitsThatDoNotSurvive` | sdk/go/laghound.go:257-258 | the positive limits that become zero or negative in 32 bits |
| `SdkConfig.NobodyIsLetIn` | sdk/go/laghound.go:345-356 | such a limit refuses every request, in every reachable state |
| `Routes.ServeDownload` | sdk/go/routes.go:91-141 | clamps, charges the budget by the clamped size, and streams full chunks that add up to it or stop at the failed write |
| `Routes.SizeSent` | sdk/go/routes.go:91-121 | a size within both caps is sent as asked for, a larger one is cut to the smaller cap, and the default is 4 MiB |
| `Routes.ServeUpload` | sdk/go/routes.go:143-177 | refuses by length unread, asks the budget for zero, drains at most the cap, charges what was received, and only then |
| `RecentRuns.RecentRunSet.constructor` | src/Networker.Agent/AgentWorker.cs:327-334 | starts with nothing remembered |
| `RecentRuns.RecentRunSet.Contains` | src/Networker.Agent/AgentWorker.cs:336-342 | membership in the set is membership among the last `capacity` effective insertions |
| `RecentRuns.RecentRunSet.Add` | src/Networker.Agent/AgentWorker.cs:344-355 | queue and set stay equal, without duplicates, and hold the last `capacity` effective insertions; a repeat keeps its slot |
| `RecentRuns.RepeatsAreFarApart` | src/Networker.Agent/AgentWorker.cs:344-355 | two effective insertions of one id are more than `capacity` insertions apart |
| `RecentRuns.RememberedIffRecent` | src/Networker.Agent/AgentWorker.cs:336-342 | an id is remembered exactly if one of its insertions is among the last `capacity` |
| `RecentRuns.AddedIsRemembered` | src/Networker.Agent/AgentWorker.cs:344-355 | an id just added is remembered, whatever came before |
| `RunProtocol.SlotsAreConserved` | src/Networker.Agent/AgentWorker.cs:229-264 | in every run free slots plus tasks holding one is four; each slot is returned exactly once |
| `RunProtocol.OneLiveTaskPerRun` | src/Networker.Agent/AgentWorker.cs:219-225 | two live tasks of one run never coexist unless a cancellation hit that run |
| `RunProtocol.EntriesAreLive` | src/Networker.Agent/AgentWorker.cs:219-262 | an in-flight entry belongs to a live task of that run or one whose token fired; an assignment starts a run exactly if the id is neither in flight nor remembered |
| `RunProtocol.StartsAreFarApart` | src/Networker.Agent/AgentWorker.cs:190-265 | in every run, two starts of a run that no cancellation hit and no assignment overlooked are more than 128 recorded finishes apart |
| `RunProtocol.AtomicAssignmentsOverlookNothing` | src/Networker.Agent/AgentWorker.cs:211-220 | with assignments handled in one go nothing is overlooked |
| `RunProtocol.OnlyLaterFinishesAreMissed` | src/Networker.Agent/AgentWorker.cs:211-220 | in every run, the only finishes of its id an assignment overlooks are more than 128 finishes old at its check or came after it |
| `RunProtocol.OverlooksIff` | src/Networker.Agent/AgentWorker.cs:211-220 | a pending assignment would start a remembered run exactly if a finish of it was recorded since its check and is among the last 128 |
| `RunProtocol.FinishBetweenChecksRestarts` | src/Networker.Agent/AgentWorker.cs:211-220 | whenever a run executes, an assignment whose two checks enclose its finish starts it again |
| `RunProtocol.CancelThenAssignDuplicates` | src/Networker.Agent/AgentWorker.cs:259-275 | whenever a run is in flight, cancelling and reassigning it leaves two live tasks of it |
| `RunHistory.TokenFiredIff` | src/Networker.Agent/AgentWorker.cs:267-295 | in every run the token of a task has fired exactly if a cancellation hit the run it was in flight for, the connection was lost while it lived, or it was started while the connection was lost |
| `RunHistory.CancellationsFire` | src/Networker.Agent/AgentWorker.cs:267-275 | in every reachable state one task was started per start, and of every cancelled run the token of a task started for it has fired |
| `RunHistory.OnlyCancelledTasksStop` | src/Networker.Agent/AgentWorker.cs:286-295 | without a lost connection only tasks of cancelled runs are stopped |
| `RunHistory.EntryIff` | src/Networker.Agent/AgentWorker.cs:211-262 | a run is in flight for a task exactly if the task was started for it and neither a cancellation nor the end of a task of that run has freed the id since |
| `RunHistory.AliveIff` | src/Networker.Agent/AgentWorker.cs:229-264 | a task is alive exactly if it was started and has not ended since |
| `RunHistory.CancelledIff` | src/Networker.Agent/AgentWorker.cs:267-275 | the excuse "cancelled" holds exactly of ids that a cancellation found in flight |
| `RunHistory.OverlookedIff` | src/Networker.Agent/AgentWorker.cs:211-220 | the excuse "overlooked" holds exactly of ids that were started while remembered |
| `RunHistory.DownIff` | src/Networker.Agent/AgentWorker.cs:75-90 | the connection is down exactly if it was lost and has not been made since |
| `RunProgress.WorkIsConserved` | src/Networker.Agent/AgentWorker.cs:229-264 | in every run the steps taken by tasks and the steps left to live tasks are four for each start, a task that dies waiting being done with all of its own |
| `RunProgress.SomeTaskCanMove` | src/Networker.Agent/AgentWorker.cs:229-264 | while a task lives some task can take a step: the slots never deadlock |
| `RunProgress.TasksCanFinish` | src/Networker.Agent/AgentWorker.cs:229-264 | from every reachable state the tasks can run to their ends, and then all four slots are free |
| `RunProgress.OnlyItsTask` | src/Networker.Agent/AgentWorker.cs:229-264 | a step of a task leaves the other tasks, a pending assignment and the tokens alone |
| `RunProtocol.SomeRunExecutes` | src/Networker.Agent/AgentWorker.cs:219-233 | the states these two start from are reachable |
| `RunProtocol.MessagesAreSequential` | src/Networker.Agent/AgentWorker.cs:150-225 | messages are handled one at a time; only the loss of the connection comes between the two checks of an assignment |
| `OutboundChannel.ChannelFrameSink.constructor` | src/Networker.Agent/RawWebSocketClient.cs:280-284 | a new sink is open, empty and has dropped nothing |
| `OutboundChannel.ChannelFrameSink.TrySend` | src/Networker.Agent/RawWebSocketClient.cs:286-308 | enqueues at the back or counts a drop; refused exactly when full, completed or not encodable, and the last is not counted |
| `OutboundChannel.ChannelFrameSink.TrySendLowPriority` | src/Networker.Agent/RawWebSocketClient.cs:310-327 | refused at half capacity and counted apart; otherwise a normal send |
| `OutboundChannel.SentIsPrefixOfAccepted` | src/Networker.Agent/RawWebSocketClient.cs:214-241 | at every step accepted is sent, then at most one frame in hand, then the queue; the socket sees a prefix |
| `OutboundChannel.DrainedPumpSentEverything` | src/Networker.Agent/RawWebSocketClient.cs:144-160 | a pump that ends by draining has sent every accepted frame, and it ends so unless something was disturbed |
| `OutboundChannel.LogFramesAreBounded` | src/Networker.Agent/RawWebSocketClient.cs:310-327 | with w concurrent low-priority senders queued log frames never exceed the mark - 1 + w |
| `OutboundChannel.RefusedOnlyForPayload` | src/Networker.Agent/RawWebSocketClient.cs:28-37 | an open channel refuses a frame only if capacity - mark + 1 - w non-log frames are queued |
| `OutboundChannel.LogBoundIsAttained` | src/Networker.Agent/RawWebSocketClient.cs:310-327 | w senders do reach the mark - 1 + w |
| `OutboundChannel.EverySendIsAccountedFor` | src/Networker.Agent/RawWebSocketClient.cs:286-380 | send calls are frames accepted, plus both drop counters, plus critical sends that gave up, plus messages that could not be encoded, plus calls under way |
| `OutboundDelivery.NormalSend` | src/Networker.Agent/RawWebSocketClient.cs:286-308 | a normal send appends its frame or is counted as a drop, the latter exactly if the channel is completed or holds 4096 frames |
| `OutboundDelivery.LowPrioritySend` | src/Networker.Agent/RawWebSocketClient.cs:310-327 | a low-priority send is counted apart exactly if 2048 frames are queued at its check |
| `OutboundDelivery.CriticalSend` | src/Networker.Agent/RawWebSocketClient.cs:329-380 | a critical send is never dropped: its frame is appended or waits |
| `OutboundDelivery.WaitingEndsOneWay` | src/Networker.Agent/RawWebSocketClient.cs:329-380 | a waiting frame stays until it is appended, possible exactly when there is room, or given up, which is counted |
| `OutboundDelivery.FlagsIff` | src/Networker.Agent/RawWebSocketClient.cs:130-175 | the socket is open until it closes, the channel completed exactly by teardown, the token fired exactly by teardown or shutdown |
| `OutboundDelivery.EndReasonsAreTrue` | src/Networker.Agent/RawWebSocketClient.cs:214-241 | the reason a pump ends for is true of the state |
| `OutboundDelivery.CanDrain` | src/Networker.Agent/RawWebSocketClient.cs:144-160 | from every state of teardown with an open socket the pump alone can send everything accepted, and then it drains |
| `OutboundDelivery.TeardownEndsThePump` | src/Networker.Agent/RawWebSocketClient.cs:144-175 | teardown ends the pump whatever state it finds |
| `OutboundDelivery.WhatCanHappen` | src/Networker.Agent/RawWebSocketClient.cs:144-241 | what the pump does next, and what may happen at any time |
| `InvocationDeadline.DeadlineIsBounded` | src/Networker.Agent/RunExecutor.cs:231-253 | a deadline is more than a minute and at most a day |
| `InvocationDeadline.ExplicitDurationIsKept` | src/Networker.Agent/RunExecutor.cs:234-238 | an explicit duration is kept with a minute on top, up to a day |
| `InvocationDeadline.DeadlineIsTight` | src/Networker.Agent/RunExecutor.cs:239-249 | otherwise the budget is a minute on top of less than a second per request beyond the timeouts, every count taken as at least one |
| `InvocationDeadline.DeadlineCoversWorkloadIff` | src/Networker.Agent/RunExecutor.cs:239-253 | it leaves room for every request timing out exactly if rounding the timeout up does not wrap in 32 bits |
| `InvocationDeadline.DeadlineThrowsIff` | src/Networker.Agent/RunExecutor.cs:249-252 | exactly which workloads make it throw |
| `InvocationDeadline.SomeWorkloadThrows` | src/Networker.Agent/RunExecutor.cs:249-252 | one such workload |
| `RunExecutor.RelayOne` | src/Networker.Agent/RunExecutor.cs:461-475 | one attempt is counted, recorded, relayed, and followed by progress when its own counter is a multiple of ten |
| `RunExecutor.Stream` | src/Networker.Agent/RunExecutor.cs:453-488 | the stdout loop relays exactly the events before the size cap is passed and reports whether it was |
| `RunExecutor.Reemit` | src/Networker.Agent/RunExecutor.cs:607-634 | the fallback relays the attempts of the output up to the first that is not an object |
| `RunExecutor.RunTesterOnce` | src/Networker.Agent/RunExecutor.cs:332-645 | one invocation relays its attempts, adds an error frame exactly when it failed, and ends as the script dictates |
| `RunExecutor.RunAll` | src/Networker.Agent/RunExecutor.cs:171-203 | invocations run in order until one does not complete, counters and envelope carried along |
| `RunExecutor.Conclude` | src/Networker.Agent/RunExecutor.cs:185-216 | the terminal frames of each ending |
| `RunExecutor.EndingIff` | src/Networker.Agent/RunExecutor.cs:446-645 | one invocation throws exactly if reading its output breaks or an attempt to be re-emitted is not an object, is cancelled exactly if the token fires while it is read or waited for, and completes exactly if its output parses and all it re-emits are objects |
| `RunExecutor.BodyEndsIff` | src/Networker.Agent/RunExecutor.cs:171-203 | a run of invocations throws, or is cancelled, exactly if one of them does (is) and every one before it completes; it completes exactly if all do |
| `RunExecutor.ExecutorThrowsIff` | src/Networker.Agent/RunExecutor.cs:62-217 | exactly when ExecuteAsync throws: an unrepresentable deadline, or such an invocation |
| `RunExecutor.Execute` | src/Networker.Agent/RunExecutor.cs:66-217 | the executor offers exactly the specified frames and throws exactly in these cases |
| `RunExecutor.RunTask` | src/Networker.Agent/AgentWorker.cs:229-264 | the run task enters the executor unless its token was disposed, and turns whatever is thrown into an error and a failed terminal |
| `RunFrames.ExactlyOneTerminal` | src/Networker.Agent/AgentWorker.cs:233-263 | every run task offers one run_finished, last; and one run_started, first, exactly if it entered the executor |
| `RunFrames.TotalsAreTheRelayedAttempts` | src/Networker.Agent/RunExecutor.cs:194-216 | totals in the terminal frame are the attempt frames offered, by outcome, over all invocations; a completed run has them |
| `RunFrames.CompletedRelaysEverything` | src/Networker.Agent/RunExecutor.cs:603-634 | a completed run relays each delivered attempt once, in order: streamed or re-emitted, never both |
| `RunFrames.ProgressIsTruthful` | src/Networker.Agent/RunExecutor.cs:466-475 | every progress frame states exactly the attempts relayed before it |
| `RunFrames.ProgressFrameCount` | src/Networker.Agent/RunExecutor.cs:473-474 | a completed run has ok/10 + failed/10 + 1 progress frames; when that is the documented number |
| `RunExamples.FewerProgressFrames` | src/Networker.Agent/RunExecutor.cs:473-474 | for any numbers of successes and failures a completed run has them, and where the remainders reach ten it has one progress frame less than documented |
| `RunExamples.AnyAttemptsCanComplete` | src/Networker.Agent/RunExecutor.cs:453-475 | any sequence of attempts is that of some completed run |
| `RunExamples.BrokenPipeThrows` | src/Networker.Agent/RunExecutor.cs:453-507 | a run whose only invocation breaks while being read throws |
| `RunExamples.NonObjectThrows` | src/Networker.Agent/RunExecutor.cs:607-614 | a run that streams nothing and re-emits an attempt that is not an object throws |
| `RunFrames.ArtifactAddsUp` | src/Networker.Agent/RunExecutor.cs:204-217 | an artifact exists exactly for a completed benchmark, and its cases add up to the totals beside it |
| `RunOutcomes.StatusIff` | src/Networker.Agent/RunExecutor.cs:185-216 | the status law: cancelled exactly if the run starts and some invocation is cancelled after others completed, completed exactly if it starts and all complete, failed in every other case |
| `RunOutcomes.RefusalIsBare` | src/Networker.Agent/RunExecutor.cs:259-264 | a job that does not start leaves an error and a run_finished without totals, and nothing is run for it |
| `RunOutcomes.TotalsReportedIff` | src/Networker.Agent/RunExecutor.cs:194-216 | the terminal carries totals exactly if the run starts and neither throws nor is cancelled |
| `RunOutcomes.FailureIsExplainedOnce` | src/Networker.Agent/RunExecutor.cs:518-560 | a failed run sends exactly one error frame, right before its end; no other run sends any |
| `RunOutcomes.CompletionIsReported` | src/Networker.Agent/RunExecutor.cs:205-216 | a completed run sends a last progress frame right before its end |
| `RunOutcomes.EnvelopeIsTheLatest` | src/Networker.Agent/RunExecutor.cs:179-184 | a completed run carries the envelope of the last output that had one; no other run carries any |
| `RunReading.OverflowsIff` | src/Networker.Agent/RunExecutor.cs:478-483 | the output is cut off exactly if its lines that are no events exceed 128 MiB; otherwise all its events are read |
| `RunReading.ReadsUpToTheCap` | src/Networker.Agent/RunExecutor.cs:453-488 | of an output that is cut off, exactly the events before the line that exceeds the cap are read |
| `RunReading.FlattenJoins` | src/Networker.Agent/RunExecutor.cs:607-614 | the attempt lists of an output are taken one after the other |
| `RunReading.RelayedByOne` | src/Networker.Agent/RunExecutor.cs:446-634 | however it ends, an invocation relays what it streamed or, falling back, the attempts of its output up to the first that is no object |
| `RunReading.RelaysUpToTheStop` | src/Networker.Agent/RunExecutor.cs:171-203 | however a run ends, it relays what its completed invocations delivered and what the one that stopped it relayed, in order |
| `RunReading.PlainModesFirst` | src/Networker.Agent/RunExecutor.cs:108-135 | a completed run relays the plain modes before the workloads, which keep their order |
| `RunArtifact.CasesHoldTheirShares` | src/Networker.Agent/RunExecutor.cs:204-217 | the artifact has a case exactly for what delivered an attempt, with the successes, failures and measured metrics of exactly those attempts: a workload under its name, plain attempts each under its own case |
| `ArtifactBuilder.Builder.constructor` | src/Networker.Agent/BenchmarkArtifactBuilder.cs:63-65 | starts without cases |
| `ArtifactBuilder.Builder.Record` | src/Networker.Agent/BenchmarkArtifactBuilder.cs:73-111 | records an object under one case, ignores anything else, and keeps the dictionary equal to the tally of all records |
| `ArtifactBuilder.CaseHoldsItsAttempts` | src/Networker.Agent/BenchmarkArtifactBuilder.cs:95-103 | a case counts exactly its own successes and failures and samples exactly their measured successes in order |
| `ArtifactBuilder.CasesAreThoseRecorded` | src/Networker.Agent/BenchmarkArtifactBuilder.cs:83-93 | there is a case for an id exactly if an attempt was recorded under it |
| `ArtifactBuilder.CasesAddUp` | src/Networker.Agent/BenchmarkArtifactBuilder.cs:95-98 | successes and failures over all cases are those of all records |
| `SeededShuffle.MatrixRng.constructor` | benchmarks/orchestrator/src/config.rs:277-284 | a zero seed is replaced |
| `SeededShuffle.MatrixRng.Next` | benchmarks/orchestrator/src/config.rs:286-292 | one wrapping 64-bit step |
| `SeededShuffle.ShuffleCases` | benchmarks/orchestrator/src/config.rs:295-304 | the in-place pass computes the specified shuffle |
| `SeededShuffle.ShuffledPermutes` | benchmarks/orchestrator/src/config.rs:295-304 | for any seed the result is a permutation |
| `SeededShuffle.ShuffleDependsOnSeedAndLength` | benchmarks/orchestrator/src/config.rs:295-304 | where each element goes is a function of seed and length alone |
| `ShuffleDraws.ShuffledByDraws` | benchmarks/orchestrator/src/config.rs:295-304 | the shuffle is the swaps asked for by the draws from the mixed seed |
| `ShuffleDraws.OrdersAreDrawnOnce` | benchmarks/orchestrator/src/config.rs:300-303 | draws and orders are in bijection: every order of distinct cases comes from exactly one sequence of draws |
| `ShuffleDraws.EveryDrawIsPicked` | benchmarks/orchestrator/src/config.rs:300-303 | every position up to the current one is drawn from some state of the generator |
| `ShuffleDraws.SteppedIsBijective` | benchmarks/orchestrator/src/config.rs:286-292 | the generator step is a bijection on 64-bit states |
| `ShuffleDraws.MixedIsInjective` | benchmarks/orchestrator/src/config.rs:299 | different seeds start differently; exactly the seed equal to the length mixes to zero |
| `ShuffleDraws.TwoCases` | benchmarks/orchestrator/src/config.rs:295-304 | two cases are exchanged by exactly the odd seeds and by 2 |
| `ShuffleDraws.FourCases` | benchmarks/orchestrator/src/config.rs:277-304 | the order of four cases under seed 42 and under a seed that is replaced |
| `CaseMatrix.TestMatrixWithSeed` | benchmarks/orchestrator/src/config.rs:366-383 | the nested loops build the product in order, then shuffle it if seeded |
| `CaseMatrix.MatrixOnce` | benchmarks/orchestrator/src/config.rs:366-383 | whatever the seed, each case occurs exactly as often as the config lists its language and its level |
| `CaseMatrix.UniqueLanguages` | benchmarks/orchestrator/src/main.rs:662-675 | the seen-set keeps the first language of each grouping key |
| `CaseMatrix.ExecutionOrder` | benchmarks/orchestrator/src/main.rs:731-753 | language by language, the matching cases in matrix order |
| `CaseMatrix.ExecutedCount` | benchmarks/orchestrator/src/main.rs:662-753 | a case runs as often as it occurs, unless another language took its key first: then never |
| `CaseMatrix.ExecutedIsPermutationIff` | benchmarks/orchestrator/src/main.rs:662-753 | the executed order holds the cases of the matrix if and only if grouping keys tell its languages apart |
| `CaseMatrix.KeysWithoutBars` | benchmarks/orchestrator/src/main.rs:667-670 | keys of names without a bar tell languages apart |
| `CaseMatrix.EveryCaseIsExecuted` | benchmarks/orchestrator/src/main.rs:662-753 | any config without bars in names, any seed: every case is executed exactly as often as configured |
| `CaseMatrix.BarsCanHideALanguage` | benchmarks/orchestrator/src/main.rs:667-670 | with bars a language can be skipped |
| `AutoRerun.Run.constructor` | benchmarks/orchestrator/src/types.rs:346-359 | starts without results and reruns |
| `AutoRerun.Run.CollectTargets` | benchmarks/orchestrator/src/main.rs:984-1076 | targets are exactly the qualifying, due cases, each at one past everything recorded or scheduled, sorted by concurrency |
| `AutoRerun.Run.RunCase` | benchmarks/orchestrator/src/main.rs:1081-1133 | a cycle records a cold and a warm result or nothing |
| `AutoRerun.Run.RerunLanguage` | benchmarks/orchestrator/src/main.rs:756-802 | the unbounded loop terminates whatever qualifies or fails; its reruns are fresh, increasing per case, below repeat + additional; it schedules at most what was left, and exactly that if every case always qualifies |
| `AutoRerun.RerunCostsOne` | benchmarks/orchestrator/src/main.rs:1036-1071 | each rerun, failed or not, uses up exactly one of the reruns left |
| `AutoRerun.AfterIsTight` | benchmarks/orchestrator/src/main.rs:1036-1071 | the next index is just one past some recorded or scheduled entry of the case |
| `AutoRerun.WithinAdditionalIff` | benchmarks/orchestrator/src/main.rs:1061-1064 | a case gets at most `additional` reruns exactly if its last planned repeat has a result |
| `AutoRerun.EstimateHolds` | benchmarks/orchestrator/src/main.rs:970-982 | then all reruns of a language stay within cases * additional |
| `AutoRerun.GeneralBound` | benchmarks/orchestrator/src/main.rs:1061-1064 | in general a case uses at most repeat + additional - 1 |
| `AutoRerun.GeneralBoundIsTight` | benchmarks/orchestrator/src/main.rs:1061-1064 | exactly that many are left whenever only its first repeat was recorded, and the loop above uses them |
| `AutoRerun.RerunsAreBounded` | benchmarks/orchestrator/src/main.rs:756-802 | both bounds for what the loop really schedules, and the exact number when every case always qualifies |
| `RerunEstimate.RunPlanned` | benchmarks/orchestrator/src/main.rs:738-754 | the planned cases of a language append the results of those that work |
| `RerunEstimate.CasesInAreUnique` | benchmarks/orchestrator/src/main.rs:970-982 | distinct languages share no case, so their cases add up to at most the unique cases of the matrix |
| `RerunEstimate.BudgetsAgainstEstimate` | benchmarks/orchestrator/src/main.rs:970-982 | what all languages may ask for against the estimate: within it if last planned repeats work, above it if only first repeats work and more than one is planned |
| `RerunEstimate.RunLanguages` | benchmarks/orchestrator/src/main.rs:677-802 | over all languages exactly that many reruns are scheduled if every case always qualifies, otherwise at most; within max_auto_rerun_steps if every last planned repeat works |
| `RerunEstimate.RunPastTheEstimate` | benchmarks/orchestrator/src/main.rs:677-802 | runs that schedule more than max_auto_rerun_steps |
| `TesterLock.Tester.TryLock` | benchmarks/orchestrator/src/tester_state.rs:36-56 | locks exactly an idle, running, unlocked row, and changes nothing else |
| `TesterLock.Tester.Classify` | benchmarks/orchestrator/src/tester_state.rs:62-85 | the answer for every row, a deleted one included |
| `TesterLock.Tester.Release` | benchmarks/orchestrator/src/tester_state.rs:87-102 | clears lock and locker exactly if the row names this config |
| `TesterLock.Tester.TryPowerTransition` | benchmarks/orchestrator/src/tester_state.rs:104-123 | compare-and-set: changes the power state only from the expected one and never past a table constraint |
| `TesterLock.LockedIffLockerRecorded` | benchmarks/orchestrator/src/tester_state.rs:36-102 | in every run the row is locked exactly when a locker is recorded |
| `TesterLock.AtMostOneHolder` | benchmarks/orchestrator/src/tester_state.rs:36-60 | without a forced release there is one holder at most between Acquired and its release, and the row names it |
| `TesterLock.ReleaseOnlyOwnLock` | benchmarks/orchestrator/src/tester_state.rs:87-102 | a release changes the row if and only if the row names its config, and then the tester can be taken again |
| `TesterLock.AnswerNamesTheLocker` | benchmarks/orchestrator/src/tester_state.rs:80 | AlreadyLockedBy(x) is answered exactly if x is the recorded locker at the SELECT; never the nil fallback |
| `TesterLock.ImmediateAnswerExplains` | benchmarks/orchestrator/src/tester_state.rs:31-85 | with nothing between UPDATE and SELECT the answer explains the miss |
| `TesterLock.NotIdleOnAFreeTesterIff` | benchmarks/orchestrator/src/tester_state.rs:83 | NotIdle(running, idle) is answered exactly about a tester that could have been taken |
| `TesterLock.AnswersIff` | benchmarks/orchestrator/src/tester_state.rs:62-85 | each answer exactly for its row: gone, stopped, in transition, failed, upgrading, locked, anything else |
| `TesterLock.LockWonIff` | benchmarks/orchestrator/src/tester_state.rs:36-60 | an UPDATE wins exactly on a running idle tester, and the row then names the winner's config |
| `TesterLock.ReleaseFreesTheTester` | benchmarks/orchestrator/src/tester_state.rs:87-102 | the holder's release frees the tester, and whoever tries next gets it |
| `TesterLock.PowerMovesIff` | benchmarks/orchestrator/src/tester_state.rs:104-123 | a power change happens exactly from the expected state and never on a locked tester; lock and locker stay |
| `TesterLock.UpgradesAndDeletions` | benchmarks/orchestrator/src/tester_state.rs:62-85 | an upgrade keeps clients out and lets them in at its end; a deleted tester is reported gone |
| `TesterLock.ForcedIff` | src/Networker.ControlPlane/Provisioning/TesterState.cs:95-108 | only a forced release of a locked tester counts as forced |
| `TesterLock.LostReleaseKeepsTheLock` | benchmarks/orchestrator/src/tester_state.rs:87-102 | a holder whose release is lost leaves the tester locked under its config |
| `TesterLock.WhatCanHappen` | benchmarks/orchestrator/src/tester_state.rs:36-123 | what may happen at any time, and what only to a row or client in the right state |
| `TesterLock.RacingReleaseMisleads` | benchmarks/orchestrator/src/tester_state.rs:31-85 | and a racing release does produce that answer |
| `TesterLock.ForcedReleaseAdmitsASecondHolder` | src/Networker.ControlPlane/Provisioning/TesterState.cs:95-108 | a forced release under any holder admits a second one, whose lock the first cannot release |
| `UdpWire.ReadsWhatWasWritten` | src/Networker.Endpoint/UdpThroughputService.cs:164-165 | a 32-bit field reads back as written |
| `UdpWire.WritesWhatWasRead` | src/Networker.Endpoint/UdpThroughputService.cs:123 | a field is determined by the number it reads as |
| `UdpWire.CtrlRoundTrip` | src/Networker.Endpoint/UdpThroughputService.cs:180-187 | every control packet is parsed as itself |
| `UdpWire.LittleEndianOfFour` | src/Networker.Endpoint/UdpThroughputService.cs:164-165 | a field is read with its least significant byte first |
| `UdpWire.CommandBytes` | src/Networker.Endpoint/UdpThroughputService.cs:180-187 | a request for 100000 bytes, byte by byte, and the code of every other command |
| `UdpWire.DataFields` | src/Networker.Endpoint/UdpThroughputService.cs:162-166 | a data packet is its number, the count and a payload of zeros |
| `UdpWire.DataRoundTrip` | src/Networker.Endpoint/UdpThroughputService.cs:93-124 | a data packet is parsed as itself exactly if it has a payload and is not four bytes numbered like the magic |
| `UdpDownload.TotalSeqsExactIff` | src/Networker.Endpoint/UdpThroughputService.cs:157 | the 32-bit chunk count is right for exactly the totals up to 2^31 - 1400 |
| `UdpDownload.ConversionsAndDivision` | src/Networker.Endpoint/UdpThroughputService.cs:157 | the conversions keep a number up to multiples of 2^32, the division truncates toward zero |
| `UdpDownload.NegativeRequestFaultsIff` | src/Networker.Endpoint/UdpThroughputService.cs:151-166 | a request read as negative still ends in a DONE exactly down to -2798; below, the first chunk cannot be made |
| `UdpDownload.SendDownload` | src/Networker.Endpoint/UdpThroughputService.cs:149-178 | the packets sent for every 32-bit total, negative ones included, and for every failing send |
| `UdpDownload.DownloadIsComplete` | src/Networker.Endpoint/UdpThroughputService.cs:157-175 | for supported totals the chunks carry 1 to 1400 bytes each and the total together |
| `UdpDownload.DownloadReadsAsData` | src/Networker.Endpoint/UdpThroughputService.cs:93-96 | no data packet of a supported download can be read as control |
| `UdpUpload.Server.constructor` | src/Networker.Endpoint/UdpThroughputService.cs:67-68 | starts without sessions |
| `UdpUpload.Server.Handle` | src/Networker.Endpoint/UdpThroughputService.cs:89-140 | what is sent and the new state for every datagram, sweep and failing sends included |
| `UdpUpload.EndsIff` | src/Networker.Endpoint/UdpThroughputService.cs:72-146 | the service ends exactly at the first reply that cannot be sent |
| `UdpService.Respond` | src/Networker.Endpoint/UdpThroughputService.cs:89-178 | end to end: a request for a supported size is answered with an acknowledgement, data packets numbered 0, 1, ... that read as 1 to 1400 bytes each and the size together, and a DONE that says so |
| `UdpService.DownloadIsAnswered` | src/Networker.Endpoint/UdpThroughputService.cs:96-104 | a download request starts a download of exactly the size asked for, whatever the server has seen |
| `UdpService.AnswersIff` | src/Networker.Endpoint/UdpThroughputService.cs:96-117 | each kind of reply answers exactly one kind of command |
| `UdpService.BreaksIff` | src/Networker.Endpoint/UdpThroughputService.cs:96-117 | the datagrams whose unsendable reply ends the service are exactly downloads, uploads and the DONE of a session |
| `UdpService.CommandsOpenAndClose` | src/Networker.Endpoint/UdpThroughputService.cs:105-116 | an upload request opens a session with nothing received, a DONE closes that of its source |
| `UdpService.OnlyOwnSession` | src/Networker.Endpoint/UdpThroughputService.cs:93-128 | a datagram touches no session but its own source's, and anything else changes nothing |
| `UdpService.CountsDatagrams` | src/Networker.Endpoint/UdpThroughputService.cs:130 | until it ends the service counts its datagrams modulo 2^64 |
| `UdpService.SweptIff` | src/Networker.Endpoint/UdpThroughputService.cs:130-141 | on every hundredth datagram exactly the sessions of 60 seconds or more are dropped, on any other none |
| `UdpUpload.ReplyIsRead` | src/Networker.Endpoint/UdpThroughputService.cs:101-115 | every reply is read by the client as it was made |
| `UdpUpload.ReportCountsFirstArrivals` | src/Networker.Endpoint/UdpThroughputService.cs:105-128 | under loss, duplication, reordering and other sources the report sums the first arrivals of the distinct numbers since UPLOAD, unless the service has ended or cannot send it |
| `UdpUpload.DoneIsAnsweredOnce` | src/Networker.Endpoint/UdpThroughputService.cs:110-116 | another DONE is not answered |
| `UdpUpload.ReportIsTotalIffComplete` | src/Networker.Endpoint/UdpThroughputService.cs:105-128 | the report is the sum of the delivered chunks and equals the total exactly when every chunk arrived |
| `Crc32.BuildTable` | src/Networker.Endpoint/Crc32.cs:11-23 | entry i of the table is eight division steps from i |
| `Crc32.Hash` | src/Networker.Endpoint/Crc32.cs:25-31 | the table-driven loop computes the bit-at-a-time CRC of every message |
| `CrcValues.Residue` | src/Networker.Endpoint/Crc32.cs:11-31 | a message of any length followed by its own CRC has the CRC 0x2144DF1C |
| `CrcValues.CheckValue` | src/Networker.Endpoint/Crc32.cs:11-31 | the digits 1 to 9 hash to 0xCBF43926 |
| `Crc32.ByteStepDivides` | src/Networker.Endpoint/Crc32.cs:28-29 | one loop iteration is one byte of polynomial division |
| `Crc32.CrcIsAffine` | src/Networker.Endpoint/Crc32.cs:25-31 | the CRC is affine over exclusive or |
| `Crc32.DivideInjective` | src/Networker.Endpoint/Crc32.cs:25-31 | the register update is injective for every message |
| `Crc32.BurstsChangeTheCrc` | src/Networker.Endpoint/Crc32.cs:25-31 | messages that differ only within 32 consecutive bits have different CRCs |
| `Crc32.FourByteErrorsChangeTheHash` | src/Networker.Endpoint/Crc32.cs:25-31 | so have messages that differ only within four consecutive bytes |
| `Crc32.LastWordReachesEveryCrc` | src/Networker.Endpoint/Crc32.cs:25-31 | after any prefix the last 32 bits reach each CRC by exactly one bit string |
| `MedianInterval.RanksStraddleTheMiddle` | scripts/benchmark-trend.py:62-66 | for every sample size the ranks lie on both sides of the middle and inside the sample |
| `MedianInterval.RanksAreTheNearest` | scripts/benchmark-trend.py:62-66 | the ranks in whole numbers: the nearest ones on each side whose doubled distance d from the middle satisfies d^2 >= 3.8416 n |
| `MedianInterval.SameRanks` | src/Networker.Agent/BenchmarkArtifactBuilder.cs:226-233 | both implementations pick the same ranks |
| `MedianInterval.IntervalContainsMedian` | scripts/benchmark-trend.py:55-66 | the interval contains the median of every sorted sample |
| `MedianInterval.HalfPercentileIsMedian` | src/Networker.Agent/BenchmarkArtifactBuilder.cs:276-288 | the 50th percentile is the median |
| `MedianInterval.PercentileAtRank` | src/Networker.Agent/BenchmarkArtifactBuilder.cs:276-288 | the k-th of n values is the percentile k / (n - 1) |
| `MedianInterval.PercentilesAreMonotone` | src/Networker.Agent/BenchmarkArtifactBuilder.cs:276-288 | percentiles never decrease in their level and stay within the sample |
| `MedianInterval.SummaryIntervalIsSound` | src/Networker.Agent/BenchmarkArtifactBuilder.cs:213-233 | from ten values on, p50 lies in the summary's interval, which is the trend report's |
| `MedianInterval.MedianLatency` | scripts/benchmark-trend.py:69-98 | collects the measured latencies of successful attempts, sorts them, and from five on gives an estimate that contains its median |
| `MedianInterval.OrderingKeepsValues` | scripts/benchmark-trend.py:93 | sorting keeps every value as often as it was measured |
| `MedianInterval.SampleIsWhatWasMeasured` | scripts/benchmark-trend.py:77-92 | the sample holds each latency exactly as often as a successful attempt measured it |
| `MedianInterval.VerdictAgainstPositiveBase` | scripts/benchmark-trend.py:143-156 | red exactly if the current interval lies above and the median rose by a fifth; green exactly the reverse |
| `MedianInterval.VerdictAgainstNegativeBase` | scripts/benchmark-trend.py:143-156 | against a negative base the colours are exchanged |
| `MedianInterval.UncolouredVerdicts` | scripts/benchmark-trend.py:143-156 | for any base: a change below a fifth is not marked, a larger one between overlapping intervals is noise, and a zero base fails |
| `MedianInterval.RedMeansSlower` | scripts/benchmark-trend.py:114-156 | for any two samples with a positive previous median, red puts the whole current interval above the previous one, green below |

## Left out

- Sockets, WebSocket framing, TLS, HTTP headers and bodies, process spawning, SSH, cloud commands: only the events they deliver are modelled.
- JSON parsing and writing: lines, attempts and documents arrive already classified.
- The SQL engine: each statement is one atomic conditional update or read of one row.
- IEEE rounding: token counts, latencies and percentiles are reals; `Round` in the artifact is not modelled.
- Waiting and timeouts: they are steps that may happen at any time; nothing says that they will.
- Authentication, method and route checks of `ServeHTTP`, which hold a slot without touching gates or budget: in `Admission` such a request is an `Abort`.
- An SDK without a byte budget: `Routes` models the handlers with a budget configured.
- Counter overflow: the gates' int32 counters, the budget's int64 and the executor's uint counters are unbounded.
- IpLimiter.Limiter.Allow: buckets are values in the map rather than objects shared between the map and the list elements, so aliasing of a list element is not captured.
- OutboundChannel.ChannelFrameSink.TrySend: one caller without interference; interleaved callers are the step machine's. The rate-limited log lines are not modelled.
- OutboundChannel: a critical sender between its failed fast path and its wait is already waiting.
- The receive loop of the WebSocket client, heartbeats and commands.
- RunExecutor: the stderr relay, its 400-line cap and its tail run beside the executor and are not in the frame log; argument building, target resolution and secret redaction are left out.
- RunExecutor.RunTask: the exceptions are those named above; others that the runtime might raise inside `ExecuteAsync` would reach the same handler.
- ArtifactBuilder: metric selection per protocol, first and last timestamps, case metadata, ordering by id and the data-quality section.
- RunProtocol: a token cancelled by the connection stops a waiting task only when the model says so; whether the executor notices its token is not modelled.
- AutoRerun.Run.CollectTargets: summaries are one per case that has results, in the order of their first result; which cases qualify is arbitrary, and the reporter that decides it is not part of this model. Reasons attached to targets are not modelled.
- RerunEstimate.RunLanguages: deployment failures and cancellation, which only skip languages.
- CaseMatrix: languages are compared as entries; validation of the config, `--quick` and language filters are left out.
- TesterLock: one row; timestamps, and the caller's loop of twenty attempts.
- UdpUpload.Server.Handle: clocks are the readings carried by each event; receive errors, which the loop skips, are not events.
- SdkConfig.Configure: the global rate, which differs from the per-client one only in its defaults; tokens, prefix, route switches and a configuration without a budget.
- The Rust tester, the control plane's dispatcher, the dashboard, report rendering and configuration defaults.
