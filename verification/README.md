# Verified model of the DFIR collection kit

A Dafny 4.11 model of the parts of the forensic collection kit that carry protocols, state machines and
arithmetic, with machine-checked proofs. `dafny verify dfyconfig.toml` checks the whole project.

## What is modelled

| file | component |
|---|---|
| `JobExecutor.dfy` | the agent's job executor: coordinator, module goroutines, semaphore, wait group, result channel and collector as a transition system; its sequential pieces as loops |
| `EvidenceTrim.dfy` | dropping the largest files until the evidence archive fits |
| `ChainOfCustody.dfy` | the hash chain per incident: concurrent appenders, the verifier, the encoding |
| `Correlation.dfy` | the streaming detections over the timeline, their deduplication and order |
| `ParsingPipeline.dfy`, `ParserTasks.dfy` | the restartable artifact pipeline with persisted stage reports, and its concurrent parser tasks |
| `JobQueue.dfy` | claims of pending jobs by queries that skip locked rows, beside resets and other row locks |
| `IncidentSync.dfy` | the aggregate status of an incident, and transactions that update it at the same time |
| `AttackGraph.dfy`, `AttackChains.dfy` | reconstruction of attack chains: tags, kill-chain graph, quarter-hour clustering |
| `RequestThrottle.dfy`, `TokenRevocation.dfy` | two time-windowed dictionaries with garbage collection, against full history |
| `Bytes.dfy`, `FileTime.dfy`, `ShellLink.dfy`, `Prefetch.dfy` | the binary parsers and their timestamp arithmetic |
| `OutputLimit.dfy` | cutting command output to bytes and lines |
| `IocMatching.dfy` | matching a timeline against known indicators |
| `Text.dfy` | strings, splitting and joining, decimal numerals |

Each component is written in the form of its source: loops stay loops and are proved against definitions that
mention no loop state; the throttle, the revocation list, the processing row and the incident are classes whose
methods state their new state; concurrency is a set of atomic steps whose interleavings are all runs.

What the environment decides is a parameter or a free choice: module runs and cancellation answers, tool exits,
exceptions and worker deaths, the times of calls, the hash function and the signature, the MAM decompressor, the
technique taxonomy, and the extraction of observables from an event. Clocks are real numbers that do not go back.
Go's `int` is 64 bits wide; wrapping is modelled where a product or a cast can leave that range. Instants are
nanoseconds since 1970 in the parsers and microseconds since 1970 elsewhere.

Five places deserve attention because the code gives less than one might expect:

- The custody encoding is ambiguous where a free-text field holds a '|', and also where the incident id, which is
  stored unchecked (`backend/app/schemas/incident.py:30-31`), holds a number behind a '|', as "A|7" does.
  `AmbiguousExactly` says exactly when.
- The retry endpoint writes "pending", so a job may be claimed more than once in its life; between two claims of a
  job there is always a reset. An older job may be claimed behind a younger one, but only if it was created or reset
  after the query for the younger one had begun, or if its row was locked when that query passed over it. Any
  row lock will do: the processing trigger (`backend/app/api/v1/endpoints/processing.py:188-196`) locks jobs that are
  still pending, and so does a write that is rolled back later. `HeldComesLate` is such a run.
- Agents that finish at once each miss the other's uncommitted status, and the incident may be left in progress with
  all jobs finished. `ShowsAggregateExactly` says when: when no transaction that has committed had seen all jobs
  finished. The second report of an agent, after its upload, repairs it if it comes late enough.
- A worker that dies before the end of the Sigma phase leaves none of its parsers' reports (`EarlyDeathStoresNothing`).
- `LimitOutput` multiplies in 64 bits; from 2^43 MB on the byte cap wraps. Every configurable size is far below.

## Model

| member | source | states |
|---|---|---|
| `JobExecutor.OrderOfVolatility` | agent/internal/jobs/executor.go:281-309 | in every state of every interleaving: once a disk module has been touched every memory module has posted its result, at most one memory module is in flight, at most `limit` modules hold a slot, and so at most `limit` disk modules are inside an attempt |
| `JobExecutor.BoundedRetriesOnePost` | agent/internal/jobs/executor.go:225-277 | every module occurrence is executed at most `attempts` times and posts at most one result, whose outcome fits the executions behind it; memory results come first, in list order |
| `JobExecutor.SendNeverBlocks` | agent/internal/jobs/executor.go:206-312 | a goroutine about to send finds room in the buffered channel and the channel open |
| `JobExecutor.NeverDeadlocks` | agent/internal/jobs/executor.go:281-318 | some goroutine can move exactly as long as the collector has not drained the closed channel |
| `JobExecutor.StepDecreases` | agent/internal/jobs/executor.go:210-336 | every step of every goroutine decreases one natural-number measure |
| `JobExecutor.RunsAreBounded` | agent/internal/jobs/executor.go:210-336 | no run takes more steps than a bound given by module count and attempts |
| `JobExecutor.MaximalRunVerdict` | agent/internal/jobs/executor.go:315-367 | a run that cannot continue has collected one result per occurrence, shows 100 percent, and is judged "all modules failed" exactly when there are modules and none succeeded |
| `JobExecutor.ProgressMonotone` | agent/internal/jobs/executor.go:318-321 | completed count and progress never go back along a run; progress stays within 0 and 100 |
| `JobExecutor.RunInv` | agent/internal/jobs/executor.go:205-336 | the invariant linking program counters, semaphore, wait group, channel, log and collector holds in every reachable state |
| `JobExecutor.EffectiveAttempts` | agent/internal/jobs/executor.go:225-228 | `retryAttempts + 1`, but one for negative values and for the 64-bit maximum, where the sum wraps |
| `JobExecutor.EffectiveLimit` | agent/internal/jobs/executor.go:112-114 | a positive limit is kept, any other becomes 4 |
| `JobExecutor.Partition` | agent/internal/jobs/executor.go:180-192 | every listed module lands in exactly one of the two lists, in original order; a memory module is one whose lower-cased id contains "memory_acquisition" or "memdump" |
| `JobExecutor.RunWithRetries` | agent/internal/jobs/executor.go:225-277 | success exactly when some attempt succeeds before a cancellation check fails and the attempts run out; otherwise says which of the two ended it; ends as the attempts of the transition system do |
| `JobExecutor.Collect` | agent/internal/jobs/executor.go:315-367 | collected counts, failed list and progress of any received sequence, and the verdict once all results are in |
| `JobExecutor.VolatileMeans` | agent/internal/jobs/executor.go:186-188 | a memory module is recognised by either tool name anywhere in its id, in any case |
| `JobExecutor.ProgressMeans` | agent/internal/jobs/executor.go:320 | progress is the percentage rounded down |
| `JobExecutor.FailedAreListed` | agent/internal/jobs/executor.go:323-325 | in the end the failed list names exactly the modules that did not succeed |
| `JobExecutor.SlotsAreUsable` | agent/internal/jobs/executor.go:297-302 | a waiting module can take a slot exactly when fewer than the limit are held, and give up exactly when the context is done |
| `JobExecutor.CancelledBeforeBegin` | agent/internal/jobs/executor.go:283-291 | a memory module that has not begun when the context is done is never executed |
| `JobExecutor.ConfigMeans` | agent/internal/jobs/executor.go:112-192 | any module list, retry count and limit give a valid configuration with one occurrence for each listed module, memory modules first |
| `JobExecutor.JobOrder` | agent/internal/jobs/executor.go:180-309 | order of volatility for the inputs of Run: a listed module that is no memory module is touched only after all memory modules have posted, memory modules run one at a time, at most the effective limit of the others are inside an attempt |
| `JobExecutor.JobBounded` | agent/internal/jobs/executor.go:180-277 | for the inputs of Run: every listed module is executed at most the effective number of attempts and posts at most once, memory modules first, and the length of runs is bounded |
| `JobExecutor.JobVerdict` | agent/internal/jobs/executor.go:180-367 | for the inputs of Run: where the executor cannot go on, one result of each listed module has been collected and the job is judged failed exactly when modules were listed and none succeeded |
| `JobExecutor.CollectorIsTheLoop` | agent/internal/jobs/executor.go:315-336 | in every reachable state the collector holds what its loop makes of the results received so far |
| `JobExecutor.ActionsAreTheLoop` | agent/internal/jobs/executor.go:225-277 | the attempts of the transition system end as the retry loop does, with the same outcome after as many executions, whatever the checks and the runs answer |
| `EvidenceTrim.Trim` | agent/internal/jobs/executor.go:597-648 | kept plus excluded is the inventory as a multiset, the rest fits, excluded files are at least as large as kept ones, the number excluded is the least over all subsets whose removal would fit; the archive adds only the manifest, and only when it could be written |
| `EvidenceTrim.TopIsHeaviest` | agent/internal/jobs/executor.go:619-631 | exchange argument: the k largest files weigh at least as much as any k or fewer |
| `EvidenceTrim.FrontIsOptimal` | agent/internal/jobs/executor.go:619-631 | a front segment of the sorted list that is needed to its last file is an optimal trim |
| `EvidenceTrim.DropUntilFits` | agent/internal/jobs/executor.go:624-630 | the loop pops exactly the shortest front segment after which the rest fits |
| `EvidenceTrim.TotalSizeMeans` | agent/internal/jobs/executor.go:605-608 | sizes add up |
| `ChainOfCustody.VerifyEntries` | backend/app/crud/chain_of_custody.py:19-37 | accepts exactly the valid chains, otherwise names the first broken entry and which check it fails; what is accepted holds no signature but missing, empty and genuine ones, and such signatures on fitting hashes are accepted |
| `ChainOfCustody.ValidChainMeans` | backend/app/crud/chain_of_custody.py:19-37 | a chain is valid exactly when every entry carries the hash before it, its own hash is that of its text, and its signature is missing, empty or the one of its hash |
| `ChainOfCustody.HashedTextMeans` | backend/app/core/security.py:128-138 | the seven parts in their order, joined with pipes |
| `ChainOfCustody.AppendersKeepEveryChain` | backend/app/crud/chain_of_custody.py:40-74 | for any interleaving of any number of transactions, each building any number of entries on stale reads and on its own rows and committing all of them or none, each incident's committed entries are numbered 1..n without gap or fork; any listing by sequence is that chain and is accepted |
| `ChainOfCustody.BuiltGoesIn` | backend/app/api/v1/endpoints/agents.py:592-669 | an entry built behind rows of the same transaction that can all go in can go in with them, under the next number, if its id is free; so an upload commits all of its entries when nothing intervenes |
| `ChainOfCustody.InsertableIsNext` | backend/app/models/chain_of_custody.py:9 | the unique constraint on (incident, sequence) lets through only a row that continues the chain at its end |
| `ChainOfCustody.RowsOnlyGrow` | backend/app/crud/chain_of_custody.py:40-74 | committed rows stay a prefix of every later state |
| `ChainOfCustody.RowsRecordPayloads` | backend/app/crud/chain_of_custody.py:65-71 | over every interleaving each row, committed or open, records id, incident, time, action, actor and target of some request |
| `ChainOfCustody.AppendedAlone` | backend/app/crud/chain_of_custody.py:40-74 | an entry built and committed with nothing in between is appended, if its id was free |
| `ChainOfCustody.AllInsertableMeans` | backend/app/models/chain_of_custody.py:9-11 | the rows of a transaction go in exactly when their ids, and their numbers within an incident, differ from the committed ones and from one another |
| `ChainOfCustody.StepsMean` | backend/app/crud/chain_of_custody.py:41-45 | a commit adds all rows of its transaction or none, a rollback none, a taken id builds nothing; other transactions are not touched |
| `ChainOfCustody.HashedTextInjective` | backend/app/core/security.py:119-139 | the seven-part join determines all fields at pipe-free fields, and the previous hash up to None and "" |
| `ChainOfCustody.ClearTextInjective` | backend/app/core/security.py:128-138 | pipes in the incident id do no harm by themselves: without a number between or behind them, and with pipe-free texts, the joined text determines the record against any other |
| `ChainOfCustody.LastHashCommits` | backend/app/crud/chain_of_custody.py:19-37 | two accepted lists with the same last hash, one of them of unambiguous records, have equal length and agree on every hashed field and link, or the two returned entries hash different texts to the same value |
| `ChainOfCustody.InjectiveHashCommits` | backend/app/crud/chain_of_custody.py:19-37 | the same with an injective hash: the last hash determines the record |
| `ChainOfCustody.AmbiguousExactly` | backend/app/core/security.py:128-138 | a different record with the same joined text exists if and only if one of the four texts holds a pipe or the incident id, cut at its pipes, has a decimal number anywhere but in front; incident ids are not checked for pipes |
| `Correlation.BruteForce` | backend/app/services/correlation_engine.py:130-157 | the streaming rule reports, in order, exactly the positions the declarative rule detects, each with its supporting failures |
| `Correlation.BruteForceEvent` | backend/app/services/correlation_engine.py:132-157 | one event updates the dictionary to the failures pending after it and reports a detection exactly when the declarative rule does |
| `Correlation.BruteForceMeans` | backend/app/services/correlation_engine.py:132-145 | the rule in numbers: a success (4624) with at least five failures (4625) of the same host and actor in the 3600 s before it that no earlier detection of the pair has claimed |
| `Correlation.BruteForceShows` | backend/app/services/correlation_engine.py:146-156 | what the detection shows: rule 001, high, 85, the supporting failures and the success |
| `Correlation.DetectionMeans` | backend/app/services/correlation_engine.py:63-73 | host, actor and time of a detection are those of its event, with "UNKNOWN" for a missing host, and its evidence is cut to 25 events |
| `Correlation.RecentIsSupport` | backend/app/services/correlation_engine.py:137-145 | the filtered dictionary entry is the set of failures of the pair within the hour before and after the previous detection, each once |
| `Correlation.SupportsAreDisjoint` | backend/app/services/correlation_engine.py:146-157 | no failure supports two detections |
| `Correlation.LateralMovement` | backend/app/services/correlation_engine.py:159-181 | one detection per actor with remote-desktop logons on three or more hosts, in the order of first logons |
| `Correlation.RdpByMeans` | backend/app/services/correlation_engine.py:15-27 | a remote-desktop logon is a 4624 of type 10 or with the phrase, by an actor that is not missing, "-", SYSTEM, ANONYMOUS LOGON or a machine account |
| `Correlation.MovesMeans` | backend/app/services/correlation_engine.py:168-170 | an actor is reported from three distinct hosts on, a missing host counting as one |
| `Correlation.RdpShows` | backend/app/services/correlation_engine.py:171-181 | rule 006, critical, 90, host and time of the last logon, the logons as evidence |
| `Correlation.Deduplicate` | backend/app/services/correlation_engine.py:235-239 | keeps exactly the first result of every (rule, host, time) key, in order |
| `Correlation.SortDetections` | backend/app/services/correlation_engine.py:240 | a stable permutation sorted by falling confidence, then time text |
| `Correlation.BeforeMeans` | backend/app/services/correlation_engine.py:240 | higher confidence first, then earlier time text, a missing time being the empty text |
| `Correlation.RunCorrelations` | backend/app/services/correlation_engine.py:130-240 | the whole pipeline: what is raised, which of it is kept, how it is ordered; every raised key appears once in the output and nothing else does |
| `Correlation.SinglesInOutput` | backend/app/services/correlation_engine.py:183-240 | per single-event rule: the output holds a detection of it for a host and a time exactly when an event with that host and time meets the rule, and what is shown is severity, confidence, host, actor, time and position of such an event |
| `Correlation.SingleEventMeans` | backend/app/services/correlation_engine.py:183-233 | which rule an event meets, by id and text: 1102, else 4698 or "scheduled task", else 4728, 4732 or 4756, else "admin$" |
| `Correlation.CorrelationIsDeterministic` | backend/app/services/correlation_engine.py:76-83 | the specification leaves one output for each list of events |
| `Correlation.StableSortUnique` | backend/app/services/correlation_engine.py:240 | a stable sort has one result |
| `ParsingPipeline.VerdictIsOfThisRun` | backend/app/services/artifact_parser_service.py:329-437 | after any history of failed, killed, retried and forced runs, a run that reaches its verdict judges and stores its own sixteen reports only |
| `ParsingPipeline.VerdictInStatuses` | backend/app/services/artifact_parser_service.py:324-437 | for every history and every finishing run that is forced or finds no DONE or PARTIAL row: FAILED exactly when one of its own stages failed, PARTIAL exactly when none failed and one was not configured or partial, DONE exactly when all succeeded or were skipped |
| `ParsingPipeline.OwnReportsMean` | backend/app/services/artifact_parser_service.py:206-253 | the reports of a complete run: the ten parsers' as they came, and for the six other stages what detectors, rules, indicators, events and chains there were |
| `ParsingPipeline.StartReportsMean` | backend/app/services/artifact_parser_service.py:330-331 | a run starts from the stored stages without the failure, or from none if it is forced or the first |
| `ParsingPipeline.StageNames` | backend/app/services/parser_execution.py:19-43 | the sixteen stage keys |
| `ParsingPipeline.StaleReportsDoNotMatter` | backend/app/services/artifact_parser_service.py:330-438 | corollary: two histories followed by the same completed run end with equal status and equal stage reports |
| `ParsingPipeline.HistoryRowOk` | backend/app/services/artifact_parser_service.py:324-484 | stored keys stay within the fixed stages plus "failure", which is present exactly on failed rows; completion and error text agree with the status; there is a row exactly when some run got to its first commit |
| `ParsingPipeline.RunEndsTerminal` | backend/app/services/artifact_parser_service.py:303-485 | a run that is not left alone changes nothing if it never gets to its first commit (workspace locked, or it raises or its worker dies before), leaves RUNNING exactly when the worker dies later, and a terminal status otherwise |
| `ParsingPipeline.RaisingRunKeepsNewest` | backend/app/services/artifact_parser_service.py:471-485 | a raising run fails the row with its reason and keeps, stage by stage, the newest report there is |
| `ParsingPipeline.EarlyDeathStoresNothing` | backend/app/services/artifact_parser_service.py:329-386 | a worker that dies before the timeline phase leaves the reports the run has started from: the first persist stores the phase only, since the dictionary the start has stored is the one the parser reports were added to |
| `ParsingPipeline.DeathShowsPhase` | backend/app/services/artifact_parser_service.py:335-424 | the phase that a row goes on to show says where the worker died |
| `ParsingPipeline.FinishedJobIsLeftAlone` | backend/app/services/artifact_parser_service.py:324-326 | corollary of the early return: any number of reruns without force leaves a DONE or PARTIAL row unchanged |
| `ParsingPipeline.ProcessingJob.Run` | backend/app/services/artifact_parser_service.py:313-485 | the step-by-step run leaves the row the history functions describe |
| `ParsingPipeline.ExecuteParser` | backend/app/services/parser_execution.py:44-83 | status and coverage of one stage: every input counted once as success or error, FAILED exactly when some input produced nothing |
| `ParsingPipeline.FailedInputsMean` | backend/app/services/parser_execution.py:64-81 | the errors list exactly the inputs that produced nothing, in order |
| `ParsingPipeline.ExecuteParsers` | backend/app/services/parser_execution.py:14-86 | one report for each of the ten fixed stage keys, with status, failed inputs and count as that stage's plan entry and tool runs determine |
| `ParserTasks.InterleavingDoesNotMatter` | backend/app/services/parser_execution.py:42-86 | corollary of the task invariant: for every interleaving the final reports are those of running the tasks one after the other |
| `ParserTasks.FourSlotsNoDeadlock` | backend/app/services/parser_execution.py:42-86 | at most four tools run at a time, a further one can start exactly while fewer than four run, and until all tasks are complete some step is possible |
| `ParserTasks.StepsDecrease` | backend/app/services/parser_execution.py:64-81 | every step decreases the remaining work |
| `JobQueue.ClaimsAreExclusive` | backend/app/crud/job.py:85-100 | over every interleaving: a job claimed again was reset in between, each claim went to the assigned agent, no two open polls have locked the same job |
| `JobQueue.ClaimedOnce` | backend/app/crud/job.py:85-100 | a job that is never reset is committed as claimed at most once |
| `JobQueue.ResetAllowsSecondClaim` | backend/app/api/v1/endpoints/incidents.py:503-506 | a concrete run in which the retry endpoint's reset leads to a second claim |
| `JobQueue.ClaimedOnceExactly` | backend/app/crud/job.py:85-100 | all runs considered claim the job at most once if and only if those in which it is reset are left out; on a given run a reset is necessary for a second claim, not sufficient |
| `JobQueue.ClaimsAreOldestFirst` | backend/app/crud/job.py:88-94 | over every interleaving of polls, row locks and writes: of two claims of one agent the earlier is of a job created no later, unless the later job was created or reset after the query for the earlier one had begun, or was locked, by another transaction or by another poll, when that query passed over it |
| `JobQueue.SerialClaimsAreOldestFirst` | backend/app/crud/job.py:88-94 | where the agent polls one at a time, the lock in that exception is one of a transaction that does not poll |
| `JobQueue.SerialPollsTakeNothing` | backend/app/crud/job.py:88-94 | a poll of an agent that polls one at a time passes over no row locked by a poll |
| `JobQueue.ResetComesLate` | backend/app/api/v1/endpoints/incidents.py:503-506 | the exceptions occur: a serial run in which a retried job comes behind a younger one |
| `JobQueue.HeldComesLate` | backend/app/api/v1/endpoints/processing.py:188-196 | a serial run in which an older job that is neither created nor reset meanwhile comes behind a younger one, since a transaction held its row |
| `JobQueue.OverlapComesLate` | backend/app/crud/job.py:88-94 | two overlapping polls of one agent that commit the younger job first |
| `JobQueue.AfterInv` | backend/app/crud/job.py:57-114 | the invariant of table, open polls and event log holds after any history |
| `JobQueue.EndsMean` | backend/app/crud/job.py:98-99 | a commit assigns the picked row and gives the lock back, a rollback gives it back |
| `IncidentSync.Summarize` | backend/app/crud/job.py:43-44 | both all-tests over the jobs' normalised statuses |
| `IncidentSync.Incident.SyncCollectionStatus` | backend/app/crud/job.py:28-54 | closed incidents and incidents without jobs are untouched; others are complete exactly when every trimmed, lower-cased job status is "complete", "completed" or "done", failed exactly when all are among these and "failed", "cancelled", "canceled", "error" and some is one of the latter, in progress otherwise, with progress and phase as the code sets them |
| `IncidentSync.NormalizedMeans` | backend/app/crud/job.py:16-17 | what is compared is the status without white space around it, in lower case |
| `IncidentSync.WordsMean` | backend/app/crud/job.py:11-13 | the three words of success and the four others that end a job |
| `IncidentSync.StaysClosed` | backend/app/crud/job.py:35-37 | no run reopens a closed incident |
| `IncidentSync.EndsMean` | backend/app/crud/job.py:103-114 | a commit gives its job its status, unless it was found with it, and touches no other job |
| `IncidentSync.ShowsAggregateExactly` | backend/app/api/v1/endpoints/agents.py:314-329 | over every interleaving from an incident in progress in which finished jobs stay finished, however often their agents report again: the committed incident status is the aggregate of the committed job statuses if and only if some job is unfinished or some committed transaction had seen all jobs but its own finished when it read, and its own finished by itself |
| `IncidentSync.LastUpdateDecides` | backend/app/api/v1/endpoints/agents.py:314-329 | over every interleaving, whatever is written to the jobs: the incident shows the aggregate of its jobs if and only if that is also the aggregate which the transaction that wrote the incident last had seen, that of the jobs committed before its read and of its own status |
| `IncidentSync.UndisturbedShowsAggregate` | backend/app/api/v1/endpoints/agents.py:314-329 | over every interleaving, whatever is written to the jobs: an incident that is not closed shows the aggregate after a transaction during which no other one committed |
| `IncidentSync.AfterInv` | backend/app/api/v1/endpoints/agents.py:314-329 | the committed statuses follow from the committed transactions, each of which found what the commits before its begin, load and read had left |
| `IncidentSync.OverlapStaysInProgress` | backend/app/api/v1/endpoints/agents.py:314-329 | two agents finish at once, each missing the other, and the incident stays in progress with all jobs finished |
| `IncidentSync.AggregateMeans` | backend/app/crud/job.py:43-52 | the aggregate function is the one aggregate that the three characterisations allow |
| `AttackGraph.ExtractTags` | backend/app/services/attack_chain_service.py:41-54 | the loop collects exactly the tactic and technique tags, in order |
| `AttackGraph.ExtractedTags` | backend/app/services/attack_chain_service.py:41-54 | a tactic is extracted exactly when some tag is its slug behind the prefix; techniques start with T and have five characters or more |
| `AttackGraph.TechniqueTagsMean` | backend/app/services/attack_chain_service.py:44-53 | a technique is extracted exactly when a tag behind the prefix is no tactic, starts with t and has five characters or more, and is upper-cased |
| `AttackGraph.TagsConcat` | backend/app/services/attack_chain_service.py:43-54 | tags are taken one after the other, in order |
| `AttackGraph.KillChain` | backend/app/services/attack_chain_service.py:19-32 | the order of the twelve tactics |
| `AttackGraph.OrderTactics` | backend/app/services/attack_chain_service.py:259-263 | the tactics that occur, strictly ascending in the kill chain |
| `AttackGraph.BuildGraph` | backend/app/services/attack_chain_service.py:154-198 | one labelled node per tactic and technique, the path of consecutive tactics, and exactly the uses-edges that tags, taxonomy or the fallback call for |
| `AttackGraph.SourcesMean` | backend/app/services/attack_chain_service.py:183-196 | a technique hangs off the tactics it was tagged with that are in the chain, else off those that the table lists, else off the first |
| `AttackGraph.LookupMeans` | backend/app/services/attack_chain_service.py:186-187 | the table is asked for the full id, then for what stands before the first dot |
| `AttackGraph.PathEdgesMean` | backend/app/services/attack_chain_service.py:171-177 | the leads-to edges are those between consecutive tactics |
| `AttackGraph.GraphIsDag` | backend/app/services/attack_chain_service.py:154-198 | node ids are unique, edges join existing nodes, no walk returns to its start, tactic and technique ids do not meet, every technique has an incoming edge once there is a tactic |
| `AttackGraph.WalksClimb` | backend/app/services/attack_chain_service.py:171-196 | every walk strictly climbs the kill-chain order, techniques on top |
| `AttackChains.WindowIsFloor` | backend/app/services/attack_chain_service.py:57-66 | replacing fields floors a UTC instant to its quarter of an hour, and the instant lies in that half-open window |
| `AttackChains.WindowsAreDisjoint` | backend/app/services/attack_chain_service.py:57-66 | two windows with a common instant are the same window |
| `AttackChains.HighestSeverity` | backend/app/services/attack_chain_service.py:143-151 | critical before high before medium before low before anything else, of which the first is taken, lower-cased; "informational" for none |
| `AttackChains.Cluster` | backend/app/services/attack_chain_service.py:232-237 | each hit is in the one group of its window, groups and their members in the order of hits, sizes add up |
| `AttackChains.ClustersPartition` | backend/app/services/attack_chain_service.py:232-237 | no hit is in two groups |
| `AttackChains.GatherTags` | backend/app/services/attack_chain_service.py:240-264 | tactics, distinct techniques in order of first use, and which technique occurred together with which tactic |
| `AttackChains.BuildAttackChains` | backend/app/services/attack_chain_service.py:201-301 | one record per window, in order of first hits, with its bounds, hits, severity and graph, the graph being the DAG above |
| `AttackChains.WindowPartMeans` | backend/app/services/attack_chain_service.py:268-272 | a window lasts fifteen minutes; hits without a time have none |
| `AttackChains.SeverityPartMeans` | backend/app/services/attack_chain_service.py:252 | the severity of a window is the highest of its hits, a missing one counting as informational |
| `AttackChains.DistinctInOrder` | backend/app/services/attack_chain_service.py:264 | distinct techniques come in the order of their first occurrences |
| `AttackChains.CountsAddUp` | backend/app/services/attack_chain_service.py:281-296 | the hit counts of the records add up to the number of hits |
| `AttackChains.EveryHitInOneChain` | backend/app/services/attack_chain_service.py:232-296 | with distinct hit ids, every hit id is listed in exactly one record; that record's half-open window holds the hit's time, or has no bounds when the hit has none |
| `AttackChains.ChainsDoNotOverlap` | backend/app/services/attack_chain_service.py:268-272 | no instant lies in the windows of two records |
| `RequestThrottle.Throttle.Enforce` | backend/app/core/request_throttle.py:22-45 | accepts exactly when the full history has fewer than `limit` accepted calls of the key in the last 60 s; states the trimmed and swept dictionary |
| `RequestThrottle.DecideAll` | backend/app/core/request_throttle.py:22-45 | any sequence of calls under a non-decreasing clock is decided as full history decides it |
| `RequestThrottle.NoWindowExceedsLimit` | backend/app/core/request_throttle.py:35-45 | with a constant limit no half-open 60 s interval, wherever it starts, holds more accepted calls than the limit |
| `RequestThrottle.FaithfulMeans` | backend/app/core/request_throttle.py:36-45 | a call is accepted exactly when fewer than the limit of the key's calls were accepted in the 60 s before it, counted one by one |
| `RequestThrottle.AcceptedWithinMeans` | backend/app/core/request_throttle.py:35-45 | what the window bound counts: accepted calls of the key in a half-open interval of 60 s |
| `RequestThrottle.SweepMeans` | backend/app/core/request_throttle.py:26-34 | a key survives the sweep exactly when one of its times is in the window |
| `RequestThrottle.RecentOfRecent` | backend/app/core/request_throttle.py:37 | trimming early does not change what a later trim leaves |
| `TokenRevocation.RevocationList.RevokeToken` | backend/app/core/security.py:60-68 | the stored map after a revocation and its hourly sweep; it keeps agreeing with the history |
| `TokenRevocation.RevocationList.IsTokenRevoked` | backend/app/core/security.py:80-88 | revoked exactly when the latest revocation of the id has not expired; deletes only an expired entry |
| `TokenRevocation.AnswerAll` | backend/app/core/security.py:49-88 | every query of a run under a non-decreasing clock is answered from full history |
| `TokenRevocation.RevokedMeans` | backend/app/core/security.py:80-88 | revoked means that the last revocation of the id expires later |
| `ShellLink.ParseLink` | agent/internal/parsers/lnk.go:145-256 | error exactly for short files and wrong header sizes; otherwise header fields, LinkInfo fields and strings at the cursor positions the file's sizes give; every index is in bounds for every file |
| `ShellLink.ReadCountedString` | agent/internal/parsers/lnk.go:217-240 | one counted string, empty but skipped when truncated |
| `ShellLink.CountedMeans` | agent/internal/parsers/lnk.go:217-240 | a count and that many characters are read; what the file cuts off is skipped and empty |
| `ShellLink.ReadLinkInfo` | agent/internal/parsers/lnk.go:187-211 | drive type, label and path at the offsets the code reads, all in bounds |
| `ShellLink.ContributesMeans` | agent/internal/parsers/lnk.go:187-211 | path and label are the bytes at their stated offsets up to the first zero, or nothing |
| `ShellLink.DriveTypeMeans` | agent/internal/parsers/lnk.go:196-199 | the seven drive-type names by number |
| `ShellLink.LinkInfoMeans` | agent/internal/parsers/lnk.go:180-213 | the block is read when the file holds all of it and it has 28 bytes or more, and skipped in any case |
| `ShellLink.NullTerminated` | agent/internal/parsers/lnk.go:259-265 | the bytes before the first zero |
| `ShellLink.CursorFits` | agent/internal/parsers/lnk.go:169-253 | no file drives the cursor beyond 2^33, so its additions never wrap |
| `ShellLink.LinkRoundTrip` | agent/internal/parsers/lnk.go:169-253 | a link laid out as the format prescribes is read back: size, times, working directory and arguments, whatever its ID list and LinkInfo blocks hold |
| `ShellLink.LinkReported` | agent/internal/parsers/lnk.go:145-256 | what the parser's contract comes to on such a link |
| `ShellLink.ReportedFaithful` | agent/internal/parsers/prefetch.go:184-197 | without zeros and surrogates the reported text determines the one laid out |
| `ShellLink.FlagBit` | agent/internal/parsers/lnk.go:111-120 | the packed flags have exactly the bits of the parts present |
| `WideText.DecodeUtf16` | agent/internal/parsers/prefetch.go:184-197 | the decoder's loop yields the UTF-8 of the units up to the first zero |
| `WideText.Utf8Means` | agent/internal/parsers/prefetch.go:196 | one, two or three bytes in the ranges of UTF-8; U+FFFD for a lone surrogate |
| `WideText.Utf8Injective` | agent/internal/parsers/prefetch.go:196 | different texts without lone surrogates have different bytes |
| `Prefetch.ParsePrefetch` | agent/internal/parsers/prefetch.go:99-182 | error cases, header fields, the counters each version keeps, the name and its fallback; every index in bounds |
| `Prefetch.CountersMean` | agent/internal/parsers/prefetch.go:144-179 | the offsets of run count and last run time by version |
| `Prefetch.UnpackedMeans` | agent/internal/parsers/prefetch.go:105-112 | "MAM" marks a compressed file |
| `Prefetch.ReadRunTimes` | agent/internal/parsers/prefetch.go:160-171 | the converted run times are those of the slots before the first empty one |
| `Prefetch.RecordedMeans` | agent/internal/parsers/prefetch.go:161-171 | slot i is recorded exactly when it and all slots before it are filled |
| `Prefetch.NameRoundTrip` | agent/internal/parsers/prefetch.go:126-127 | a zero-padded name in its field is read back exactly |
| `FileTime.FileTimeExact` | agent/internal/parsers/prefetch.go:200-211 | the wrapping product and signed cast are exact if and only if the distance from the epoch is at most 92233720368547758 |
| `FileTime.FileTimeMonotone` | agent/internal/parsers/prefetch.go:209 | strictly monotone where exact; one step further gives an instant before 1970 |
| `FileTime.EpochMeans` | agent/internal/parsers/prefetch.go:204-205 | the epoch constants are the 134774 days from 1601 to 1970 |
| `FileTime.NoInstant` | agent/internal/parsers/prefetch.go:200-208 | which times have no instant |
| `FileTime.ChromeAgrees` | agent/internal/parsers/sqlite.go:239-250 | FILETIME 10t and Chrome t show the same second if and only if the FILETIME is in the exact range, and then are equal |
| `FileTime.FirefoxIsShiftedChrome` | agent/internal/parsers/sqlite.go:253-258 | a Firefox time is the Chrome time shifted by the epoch |
| `OutputLimit.LimitOutput` | agent/internal/modules/registry.go:395-410 | the longest prefix of the input within the byte cap and the line cap, or a panic when the wrapped byte cap is negative |
| `OutputLimit.WithinMeans` | agent/internal/modules/registry.go:396-407 | the caps in bytes of 2^20 per MB and in lines as split at line feeds; zero and negative caps are none |
| `OutputLimit.FirstLines` | agent/internal/modules/registry.go:402-407 | splitting, taking k lines and joining gives the longest prefix with at most k lines |
| `OutputLimit.LongestUnique` | agent/internal/modules/registry.go:395-410 | there is only one such prefix |
| `OutputLimit.Idempotent` | agent/internal/modules/registry.go:395-410 | limiting again changes nothing |
| `OutputLimit.PromiseExact` | agent/internal/modules/registry.go:396-401 | the byte cap that is meant is honoured on all content if and only if it is below 2^43 MB |
| `IocMatching.Scan` | backend/app/services/ioc_service.py:107-165 | table, nested loops and key set yield exactly the first hit of each joined key, in scan order, with its event |
| `IocMatching.RunMatching` | backend/app/services/ioc_service.py:75-181 | without timeline or indicators stored matches stay, otherwise they are replaced by the scan |
| `IocMatching.MatchMeans` | backend/app/services/ioc_service.py:129-165 | an observable is a hit exactly when type and value of some indicator, lower-cased, are its own; the match names the last such indicator, its severity, and field, value and event of the observable |
| `IocMatching.OccurrencesMean` | backend/app/services/ioc_service.py:115-130 | what is scanned is every observable of every event |
| `IocMatching.BuildTable` | backend/app/services/ioc_service.py:102-105 | the lookup table answers as the list of indicators does |
| `IocMatching.LookupMeans` | backend/app/services/ioc_service.py:102-105 | the last-loaded indicator wins per type and value |
| `IocMatching.KeyInjective` | backend/app/services/ioc_service.py:135 | the joined key is injective at colon-free ids and values, whatever the field |
| `IocMatching.KeySharedExactly` | backend/app/services/ioc_service.py:135 | a different triple has the same joined key if and only if the id, the field or the value holds a colon; only field names can in practice, for which the injectivity above suffices |
| `IocMatching.OneMatchPerTriple` | backend/app/services/ioc_service.py:129-140 | exactly one match per (indicator, field, value), at its first occurrence |
| `Strings.ContainsMeans` | backend/app/services/correlation_engine.py:198 | a text contains another exactly when it is something, that text, something |
| `Strings.StripMeans` | backend/app/crud/job.py:17 | stripping takes off white space only, and all of it at both ends |
| `Strings.CaseMeans` | backend/app/crud/job.py:17 | lower and upper case differ by 32 on the letters A to Z and nowhere else |
| `Strings.LexMeans` | backend/app/services/correlation_engine.py:240 | the order of texts: a prefix first, else by the first difference |
| `Decimal.NatTextMeans` | backend/app/core/security.py:131 | numerals are decimal without leading zeros |
| `Bytes.LittleEndian` | agent/internal/parsers/lnk.go:176 | the byte at offset k weighs 256 to the power of k |
| `Bytes.SignedIsCongruent` | agent/internal/parsers/prefetch.go:209 | a cast to int64 differs from the integer by whole turns of 2^64 |

## Left out

- Agent status reports and the mutex that serialises them: they carry no result between goroutines; "cancelled" is not absorbing and not every run reports a terminal status, so neither is claimed.
- ZIP writing, parsing on the agent, upload and the remaining phases after the verdict: input and output.
- EvidenceTrim.Trim: sizes are unbounded, so a collection of more than 2^63 bytes is not modelled; any sort by falling size serves, the library's own algorithm is not modelled.
- SHA-256, HMAC, bcrypt, JWT: opaque functions; the results name what they ask of the hash.
- ChainOfCustody.AppendersKeepEveryChain: relies on the constraints alone, checked at the commit; the row lock of the select and the waiting of a flush only make conflicts rarer or end them earlier.
- Listing entries of all incidents together: the verifier is meant for one incident's list.
- Correlation.RunCorrelations: the SQL fetch, JSON parsing, the remote-desktop pattern and the texts of titles and descriptions; actors that differ only beyond rule, host and time are merged by the deduplication, as in the code.
- ParsingPipeline.ProcessingJob.Run: the list of failed stage names inside the error text, the log lines, phase markers and the archive of derived outputs; the workspace lock is taken as exclusive.
- ParsingPipeline.HistoryRowOk: rows written by other code between runs are not modelled, PENDING before a dispatch and FAILED when the message broker is down (`backend/app/api/v1/endpoints/processing.py:219-240`).
- `ArtifactCache`: a lookup by extension and name that would add only easy members.
- ParserTasks.InterleavingDoesNotMatter: tasks that end before their loop (no inputs, tool missing) hold no slot and are covered by `ExecuteParser`.
- JobQueue.ClaimsAreOldestFirst: jobs are not deleted. Locks of transactions that do not poll do not exclude one another, since some of them are shared; a transaction that locks several rows is several locks.
- IncidentSync.ShowsAggregateExactly: for runs in which no write takes a finished job back or turns success into failure or failure into success; for all others `LastUpdateDecides` says what is shown. `update_job_status` protects no status, so a retry, or a report that a cancelled job is collecting, makes such another run.
- IncidentSync.LastUpdateDecides: the jobs of the incident are fixed, and nobody else writes its status, as closing it does. Progress and phase are stated for one update only.
- Database engine, migrations, message broker and HTTP: tables are maps and sequences with the stated lock and uniqueness rules.
- AttackChains.WindowIsFloor: times are UTC; a zone whose offset is no multiple of fifteen minutes is not modelled.
- Case mapping and white space are ASCII (`Lower`, `Upper`, `Strip`).
- ParsingPipeline.ExecuteParser: the reason of a missing tool does not name the tool.
- RequestThrottle.Throttle.Enforce: clock readings are reals, not floating-point numbers; one process.
- TokenRevocation.AnswerAll: the in-memory path only, not the shared store.
- ShellLink.ReadLinkInfo: the code reads LinkInfo fields four bytes earlier than section 2.3 of MS-SHLLINK places them, so bounds and exact offsets are stated, not conformance; `int` is 64 bits wide, so a 32-bit agent is not modelled.
- Prefetch.ParsePrefetch: the name derived from the file name is a parameter; MAM decompression is not part of this model.
- Rendering of timestamps as RFC 3339 text, beyond the second they show.
- IocMatching.Scan: the regular expressions, JSON parsing and event timestamps; the observables of an event are listed type by type in the order of the loops.
- Collection modules, SQLite row writers, seeds, scheduled collections, legal holds, audit log, frontend: no logic that would add hard properties.
