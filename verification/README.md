# Pheasant, modelled and proved in Dafny

This project models the parts of Pheasant whose correctness is not visible from any one function, and proves
what its code and documentation promise about them. `dafny verify dfyconfig.toml` checks everything.

- **Shard planning** (`Sharding`, `ShardPlan`, `ShardBudget`, `ShardDeterminism`, `ShardPlanner`,
  `ShardArtifacts`). Whole sources are packed largest-first into regions. The main result is the 4/3 bound
  against every other arrangement, proved by weighing: when the last source of the fullest bin is over a
  third of the ceiling, every arrangement weighs at most two per bin while the packed bins weigh at least two
  each.
- **Shared state between threads and processes** (`PromotionGate`, `PromotionExit`, `JobSnapshots`,
  `SnapshotProtocol`, `SnapshotRuns`, `SnapshotListing`, `SnapshotStore`, `GraphRefresher`, `ProgressEmitter`).
  Each protocol is a state machine with one step per atomic action; the theorems hold for every interleaving. The
  elected indexer's sync gate is judged by a log of observable events and a small observer that knows nothing of
  the machine.
- **The job registry** (`SourceProgress`, `JobRegistry`, `JobRollup`, `RegistryRuns`, `HeadlineRuns`). Classes updated in
  place, each method tied to a function on values, and properties of whole runs proved about those functions. A job id
  may be created any number of times, as the queue drainer does with the id of its task
  (`src/pheasant/cli.py:573-578`).
- **The artifact checker** (`CodeBlocks`, `ArtifactKeys`, `ComposeReview`). What the passages document is
  never reported, whatever a reviewer answers.
- **Algorithms against a simple meaning** (`KeysetPaging`, `GraphPages`, `EnvQuote`, `TextLines`, `EnvMerge`,
  `Targets`, `Releases`). Paging under writers, a `.env` merge as a map override, names and clone
  directories, and release versions that the later check accepts.

`Common.dfy` holds lists, sums over bins, decimal numbers and joining and splitting text.

## Where the code and its words differ

The model follows the code. Each difference has a lemma that shows it and lemmas that say when it matters:
exactly when, but for the first, which is exact for two families and bounded from both sides for the rest.

- The automatic shard count is a lower bound, not "the smallest count that keeps every shard under" the budget
  (`src/pheasant/sharding.py:115-119`): `ShardPlan.AutomaticCountCanOverflow`. The promise is kept exactly as
  `ShardBudget.EqualSourcesExactly` says for sources of one size and `ShardBudget.OneEachExactly` for as many
  shards as sources. For all others `ShardBudget.RoomForLargestIsEnough` and `ShardBudget.QuarterOfSlackIsEnough`
  are enough and `ShardBudget.PromiseNeeds` is needed; in between it depends on how largest-first packs.
- A terminal job does change again, when its id is created or finished again (`src/pheasant/jobs.py:59-60`,
  449-451, 510-535): `RegistryRuns.FinishedJobCanChange`, `RegistryRuns.FinishedJobChangesExactly`.
- The cap is not "how many completed jobs to keep" (`src/pheasant/jobs.py:62-63`, 790-803): every entry of the
  order counts against it. Running jobs do, `RegistryRuns.RunningJobsCount`, and so do the older entries of an
  id created again, `RegistryRuns.OrderGrowsWithReuse` and `RegistryRuns.ReusedIdIsEvictedEarly`. `RegistryRuns.FinishedLostExactly`
  says when a finished job is lost, `RegistryRuns.OrderMatchesJobsExactly` when the order is the table.
- The job's headline phase is the one reported last, not the least advanced (`src/pheasant/jobs.py:356-360`), after
  a report, `HeadlineRuns.HeadlineCanBeAhead`, and after a source finishes,
  `HeadlineRuns.FinishingCanPutHeadlineAhead`. `JobRollup.HeadlineIsLeastExactly` says when it is the least advanced
  after a report about an active source, `JobRollup.HeadlineAfterLateReportExactly` after one about a source that
  has ended, and `JobRollup.HeadlineAfterFinishExactly` after a source finishes; with no active source left the
  question does not arise.
- The last snapshot written of a finished job need not be its newest (`src/pheasant/jobs.py:772-777`):
  `SnapshotRuns.SucceededJobCanReadFailed`, `SnapshotRuns.FinishedKeepsOutcomeExactly`.
- The snapshot of a job created again can be removed by a clear that read the older job's
  (`src/pheasant/job_snapshots.py:113-127`): `SnapshotRuns.RecreatedJobCanVanish`,
  `SnapshotRuns.LiveSnapshotStaysExactly`.
- A demoted leader can begin another task (`src/pheasant/cli.py:365-366`):
  `PromotionGate.DemotedProcessCanClaim`, `PromotionGate.DemotedClaimsExactlyWhenPastCheck`.
- A reload that raised is not retried (`src/pheasant/cli.py:779`): `GraphRefresher.RaiseLeavesStaleGraph`,
  `GraphRefresher.RaisedReloadIsNotRetried`, `GraphRefresher.BehindExactly`,
  `GraphRefresher.OnePassCatchesUpExactly`.
- A second `.env` merge does rewrite the file when a value has a line break in it
  (`src/pheasant/setup_wizard.py:2072-2073`): `EnvMerge.TwoLinesAreRewritten`, `EnvMerge.SecondMergeQuietExactly`.

## Model

| member | source | states |
|---|---|---|
| Sharding.LargestFirstBound | src/pheasant/sharding.py:131-138 | Graham's bound for largest-first packing, in integers: for every bin j, 3·m·load(j) + cap ≤ 4·m·cap, where cap is the ceiling of any other arrangement of the same whole sources into m bins |
| Sharding.FourThirds | src/pheasant/sharding.py:20-23 | the bound as the module words it: within 4/3 of the best |
| Sharding.PackConserves | src/pheasant/sharding.py:135-138 | packing loses and doubles no source |
| Sharding.LastPlaced | src/pheasant/sharding.py:136-138 | the last source of a bin arrived while that bin was the first of the least loaded, and nothing came after it |
| Sharding.SortedOrders | src/pheasant/sharding.py:134 | the planner's order is a rearrangement with most files first, then names in order |
| Sharding.UsableExactly | src/pheasant/sharding.py:121-123 | exactly the sources with files are planned for, each as often as it is listed |
| Sharding.NodesRoundDown | src/pheasant/sharding.py:52-58 | the node count of a source is 6.3 per file, rounded down |
| ShardPlan.PlanWithinFourThirds | src/pheasant/sharding.py:107-167 | the same bound for every shard of every plan, asked-for or automatic count, against every arrangement |
| ShardPlan.PlanConserves | src/pheasant/sharding.py:121-167 | every source with files is in exactly one shard and no other source is in any; no shard is empty and no warning ever says one would be; shard totals add up to the plan's |
| ShardPlan.NoBinIsEmpty | src/pheasant/sharding.py:129-158 | with at most as many shards as usable sources no bin stays empty, so the "would be empty" warning is unreachable |
| ShardPlan.PlanShape | src/pheasant/sharding.py:160-166 | the shards of a plan are the packed bins, numbered in order, all of them |
| ShardPlan.AskedForCount | src/pheasant/sharding.py:115-129 | asked for k shards, a plan over n usable sources has k of them when 1 ≤ k ≤ n, n when k is more, one when k is less |
| ShardPlan.AutomaticCount | src/pheasant/sharding.py:125-129 | without one asked for it has the least number whose budgets add up to the total, at least one and at most n; a budget below one counts as one |
| ShardPlan.PlanStatesItsInput | src/pheasant/sharding.py:121-167 | there is no plan exactly when no source has files, and a plan states the budget and its number of shards |
| ShardPlan.WarningIsTrue | src/pheasant/sharding.py:141-152 | every warning is about a shard over the budget, states its load, and names a source of that shard that none has more files than and none before it as many, with its nodes |
| ShardPlan.OverBudgetIsWarned | src/pheasant/sharding.py:141-152 | every shard over the budget has a warning |
| ShardPlan.SilentExactlyWhenWithin | src/pheasant/sharding.py:140-158 | a plan has no warnings if and only if every shard is within the budget |
| ShardPlan.FewerBinsOverflow | src/pheasant/sharding.py:125-128 | no arrangement of whole sources keeps every bin within the budget with fewer than ⌈total / budget⌉ bins |
| ShardPlan.AutomaticCountLoads | src/pheasant/sharding.py:126-129 | when the automatic count is used as it is, m·load ≤ m·budget + (m − 1)·largest source for every shard |
| ShardPlan.ClampedCountWarns | src/pheasant/sharding.py:126-152 | when the automatic count exceeds the number of sources, some single source is over the budget and a warning says so |
| ShardBudget.RoomForLargestIsEnough | src/pheasant/sharding.py:113-129 | the docstring's promise, for the automatic count m: when total + (m − 1)·largest ≤ m·budget every shard is within the budget, no arrangement into fewer bins is, and the plan has no warnings |
| ShardBudget.QuarterOfSlackIsEnough | src/pheasant/sharding.py:113-138 | it is kept too whenever any arrangement into m bins stays within 3m / (4m − 1) of the budget |
| ShardBudget.PromiseNeeds | src/pheasant/sharding.py:113-129 | the promise needs, for every k, that k + 1 sources as large as the one at place k·m from the largest fit the budget together; k = 0 is the largest source alone |
| ShardBudget.EqualSourcesExactly | src/pheasant/sharding.py:113-129 | for n sources of one size p the promise is kept if and only if ⌈n / m⌉·p ≤ budget |
| ShardBudget.OneEachExactly | src/pheasant/sharding.py:125-129 | when m is the number of sources the promise is kept if and only if each source fits alone |
| ShardBudget.FittingNeeds | src/pheasant/sharding.py:125-138 | any arrangement into m bins within a budget has a bin of k + 1 of the k·m + 1 largest sources |
| ShardPlan.AutomaticCountCanOverflow | src/pheasant/sharding.py:115-119 | the docstring's "smallest count that keeps every shard under" the budget fails: three one-file sources under a budget of ten nodes get two shards, one over, where three would fit |
| ShardDeterminism.PlanIgnoresListingOrder | src/pheasant/sharding.py:121-167 | every reordering of the listed sources, ties and repeated names allowed, gets the whole same plan, warnings included |
| ShardPlanner.FindSmallest | src/pheasant/sharding.py:137 | the loop finds the first of the least loaded shards |
| ShardPlanner.FillShards | src/pheasant/sharding.py:135-138 | appending to the shard objects in place leaves them holding exactly the packing the bound is about |
| ShardPlanner.CollectWarnings | src/pheasant/sharding.py:140-158 | the warnings collected are those of the packed bins, in order |
| ShardPlanner.PlanShards | src/pheasant/sharding.py:107-167 | the planner, run step by step, returns the plan all these properties are about |
| ShardArtifacts.RenderArtifacts | src/pheasant/sharding.py:463-482 | the loop emits each region's three files and, when there are regions, the README |
| ShardArtifacts.PathsDiffer | src/pheasant/sharding.py:467-481 | different regions or kinds of file never share a path, and none is the README's |
| ShardArtifacts.PlannedRegionsKeepTheirFiles | src/pheasant/sharding.py:463-482 | regions of a plan have pairwise distinct ids and each keeps all three files with its own contents and port |
| ShardArtifacts.RegionsShareNoSource | src/pheasant/sharding.py:226-258 | when source names are distinct no source is configured in two regions |
| ShardArtifacts.EverySourceHasARegion | src/pheasant/sharding.py:226-258 | and every configured source with files is configured in some region |
| ShardArtifacts.RegionContents | src/pheasant/sharding.py:463-482 | the files of region i stand under its id, carry that id, listen on the base port plus i, and configure exactly the sources that are configured and in that shard |
| PromotionGate.RunKeepsInv | src/pheasant/cli.py:317-409 | in every interleaving of election, promotion worker, drainers old and new, and other holders of the lock, the gate has one owner and the log is legal: only a leader's producers run, they are stopped drainer first and watcher last, and leadership is gained and given up with all of them stopped |
| PromotionGate.NoClaimWhileReconciling | src/pheasant/cli.py:326-342 | between taking the sync gate and the release that ends that reconciliation nobody claims a task, begins a drain or takes the gate again |
| PromotionGate.ReleasedOncePerReservation | src/pheasant/cli.py:330-349 | reservations and releases balance exactly, but for one still owed by the thread about to be started or the worker at work |
| PromotionGate.DrainsNeverOverlap | src/pheasant/cli.py:528-536 | no drain begins and no other thread claims before the current drain ends, threads that outlived their stop included |
| PromotionGate.ProducersStartDemoted | src/pheasant/cli.py:350-373 | a producer starts, and leadership is gained, only after that producer was stopped |
| PromotionGate.DemotionInOrder | src/pheasant/cli.py:365-373 | a demotion stops claims first, then the scheduler, then the watcher, and gives up the lead last |
| PromotionGate.OnlyLeadersStart | src/pheasant/cli.py:317-373 | in every log a producer starts, and the lead is given up, only after a promotion with no demotion since; the lead is gained only without one |
| PromotionGate.DemotedClaimsExactlyWhenPastCheck | src/pheasant/cli.py:363-373 | without another promotion a process that no longer leads can still claim if and only if one of its drainer threads is past its stop check |
| PromotionGate.DemotedProcessCanClaim | src/pheasant/cli.py:365-366 | a run in which it happens, against the comment that a demoted leader begins no other task |
| PromotionExit.NothingBeginsAfterExit | src/pheasant/cli.py:387-409 | once the election loop has seen the stop event nothing logged afterwards, in any interleaving, is a promotion, a reservation of the gate or the start of a producer |
| PromotionExit.StopEndsElection | src/pheasant/cli.py:300-307 | a process told to stop has at most nineteen moves of its election thread left, and at most five once it has seen the event; when these are made, and only then, the thread has ended, not leading, its lease given up and every producer stopped |
| PromotionExit.StoppingCanExit | src/pheasant/cli.py:379-409 | from every reachable state of a process told to stop some continuation ends the thread: no interleaving traps it, not even one that waits for a gate held elsewhere |
| PromotionExit.StoppingPromotesAtMostOnce | src/pheasant/cli.py:387-405 | a process told to stop is promoted at most once more, and only when its thread was already past the look at the event that precedes an attempt at the lease |
| PromotionExit.LostLeaseDemotes | src/pheasant/cli.py:360-397 | a leader whose poll finds the lease lost or the stop event set is, in every continuation, within its demotion or demoted in the log, at the latest after four moves of the election thread |
| PromotionExit.HeldLeaseKeepsLead | src/pheasant/cli.py:387-397 | and a leader stays one for as long as it holds the lease and is not told to stop |
| PromotionExit.PromotedOnWonLease | src/pheasant/cli.py:398-404 | the lead is gained only right after an attempt at the lease that won |
| PromotionExit.ReservedBeforeStart | src/pheasant/cli.py:323-355 | whenever a producer is about to start, the gate was taken since the lead was last gained, or the worker of an earlier promotion was alive when this one looked |
| SnapshotRuns.LiveSnapshotStaysExactly | src/pheasant/job_snapshots.py:91-155 | once a live job's running snapshot stands it stays, for as long as that job runs and is rewritten at gaps of at most 150 s and no job of its id is finished, if and only if no removal, reap or publish of an ended job of that id is begun and not yet done; other jobs may be late or die, and the id may have been used before and be created again |
| SnapshotRuns.LiveJobStaysRunning | src/pheasant/job_snapshots.py:91-155 | so a published live job rewritten in time, whose id no other job has, is in the directory and reads running at every moment, whatever other processes do or fail to do |
| SnapshotRuns.DeadJobReadsFailed | src/pheasant/job_snapshots.py:135-140 | more than 150 s after the process of a running job died, a snapshot rendered from that job reads failed |
| SnapshotRuns.DyingJobReadsFailed | src/pheasant/job_snapshots.py:135-140 | and this happens: a run in which a process publishes a running job, dies, and leaves it reading failed |
| SnapshotRuns.EndedStaysExactly | src/pheasant/job_snapshots.py:91-140 | an ended snapshot says ended until its id is created again if and only if no job of the id in a living process still renders as running and no publish rendered while one ran is still to be written |
| SnapshotRuns.DeadStaysEnded | src/pheasant/job_snapshots.py:91-111 | so once the processes of all its jobs are dead it never says running again, short of a new creation |
| SnapshotRuns.ReapIsPermanent | src/pheasant/job_snapshots.py:104-109 | when the processes of all jobs of an id are dead and a rewrite of its snapshot is done, the snapshot is there and says ended in every later state until the id is created again |
| SnapshotRuns.DeadJobCanBeReaped | src/pheasant/job_snapshots.py:91-111 | and from 150 s after the death any living process can bring that about: it reads the snapshot as stale, decides on the rewrite and does it |
| SnapshotProtocol.RunKeepsSettled | src/pheasant/jobs.py:427-455 | in every schedule, with ids created again at any time, each file and each task begun belongs to a job of its id, nothing written says a running job ended but a reap, and the dead wrote before they died |
| SnapshotRuns.FinishedKeepsOutcomeExactly | src/pheasant/jobs.py:763-783 | once an id's snapshot says how a job ended, every later read says the same, until the id is created or finished again, if and only if no running job of the id can still be rendered and nothing begun before is still to be written that says otherwise: no publish that crossed, and no reap |
| SnapshotRuns.SucceededJobCanReadFailed | src/pheasant/jobs.py:772-777 | publishing renders under the lock and writes after it: a timely run in which a succeeded job of a live process ends up reading failed |
| SnapshotRuns.RecreatedJobCanVanish | src/pheasant/job_snapshots.py:113-127 | a timely run in which a removal decided on for a finished job removes the snapshot of the job created again under its id |
| SnapshotRuns.CreationSaysRunning | src/pheasant/jobs.py:427-455 | creating an id again makes its snapshot say running from any state |
| SnapshotListing.ListedExactly | src/pheasant/jobs.py:427-455 | in every run a process lists a job until it creates another of its id, and no longer |
| JobSnapshots.InterruptedExactly | src/pheasant/job_snapshots.py:129-141 | a stale running snapshot is read with each source that ran as failed, every other as it was, and its last write as its end |
| SnapshotStore.Store.constructor | src/pheasant/job_snapshots.py:52-54 | the cap is at least one |
| SnapshotStore.Store.Evict | src/pheasant/job_snapshots.py:143-155 | past the cap finished snapshots go, oldest first and only as many as needed; one that reads running is never dropped, none is changed, and within the cap none goes |
| SnapshotStore.Store.Write | src/pheasant/job_snapshots.py:56-76 | the snapshot is replaced whole and the others stay as they were; with at most the cap in the directory that is all, otherwise oldest finished ones go, and no more than are past it |
| SnapshotStore.Store.ClearFinished | src/pheasant/job_snapshots.py:113-127 | exactly the snapshots asked about that do not read running are removed |
| SnapshotStore.Store.ReapStale | src/pheasant/job_snapshots.py:91-111 | no orphan is left running outside the ids to keep; each is written down as the failure a reader saw; nothing that reads running is touched, and within the cap nothing leaves |
| SourceProgress.Progress.constructor | src/pheasant/jobs.py:156-188 | a new record is queued, at zero, with nothing banked |
| SourceProgress.Progress.EnterPhase | src/pheasant/jobs.py:202-216 | a phase change banks the old phase's time and drops its samples and, unless one comes with it, its total |
| SourceProgress.Progress.Observe | src/pheasant/jobs.py:190-234 | the fields updated in place are the record after one more update |
| SourceProgress.Progress.Finish | src/pheasant/jobs.py:236-246 | finishing banks the phase, sets the status and moves a known counter to its total |
| SourceProgress.RecordRefinesHistory | src/pheasant/jobs.py:190-246 | after any history the samples are the last 30 counter reports of the current phase, the total is the last one reported in that phase or unknown, and the counter, phase, detail, status, time of the last report, the four counts and the last 25 failures are those the history says |
| SourceProgress.PhaseSecondsAddUp | src/pheasant/jobs.py:202-208 | banked seconds sum to exactly the time from creation to the last banking, and the phases an active record reports sum to its age |
| SourceProgress.PhaseSecondsAreTimeIn | src/pheasant/jobs.py:203-208 | each phase is credited with its own visits and no other's, however often it ran |
| SourceProgress.RateIsWithinThePhase | src/pheasant/jobs.py:252-262 | both ends of a quoted rate are reports of the phase in progress, the later one the last, and rate times time is the files advanced |
| SourceProgress.RateExactly | src/pheasant/jobs.py:252-262 | there is a rate exactly when the last 30 reports of the phase have two ends with time and progress between them |
| SourceProgress.EtaCompletes | src/pheasant/jobs.py:264-269 | there is a time to completion exactly when rate and total are known, and at that rate it does exactly what is left |
| JobRegistry.Registry.constructor | src/pheasant/jobs.py:394-405 | a new registry is empty |
| JobRegistry.Registry.Create | src/pheasant/jobs.py:427-454 | one record per target, the job last in the order, then eviction |
| JobRegistry.Registry.Progress | src/pheasant/jobs.py:477-507 | an update to an unknown or finished job changes nothing; any other goes to its record and the rollup |
| JobRegistry.Registry.Finish | src/pheasant/jobs.py:518-534 | the job takes the status, error, result and time it is given, its active sources end with the status, and a known counter reaches its total; there is no terminal guard |
| JobRegistry.Registry.FinishSource | src/pheasant/jobs.py:544-554 | one active source of a running job ends |
| JobRegistry.Registry.Clear | src/pheasant/jobs.py:717-731 | the table and order after it are those of the run properties, and the ids of the jobs that left are returned |
| JobRegistry.Registry.Evict | src/pheasant/jobs.py:790-803 | the walk over the order is the eviction the run properties are about |
| JobRollup.RollupFollowsRecords | src/pheasant/jobs.py:351-355 | a job has a total if and only if every record has one that is not zero, and replacing one record by any other moves the job's counter and total by the difference of the two |
| JobRollup.RollupOfOne | src/pheasant/jobs.py:351-363 | a job of one source reads as that source: counter, total, phase and detail |
| JobRollup.HeadlineIsNewest | src/pheasant/jobs.py:356-363 | the job's phase is that of the record updated last, among active ones if there are any |
| JobRollup.HeadlineIsFirstNewest | src/pheasant/jobs.py:356-363 | more exactly, that of the first of those updated last; a job of several sources says before its detail which it is |
| JobRollup.HeadlineIsLeastExactly | src/pheasant/jobs.py:356-360 | however phases are ranked, after an update about an active source the headline is a least advanced active phase if and only if that source is now in no later a phase than any other active one |
| JobRollup.HeadlineAfterFinishExactly | src/pheasant/jobs.py:544-554 | after a source is finished while others are active the headline is that of the newest of these, and a least advanced phase if and only if no other of them is in an earlier one |
| JobRollup.HeadlineAfterLateReportExactly | src/pheasant/jobs.py:495-506 | so too after an update about a source that has ended |
| HeadlineRuns.HeadlineCanBeAhead | src/pheasant/jobs.py:356-360 | in any run of a job whose sources are active, two reports after which one source is in an early phase and the headline is a later one |
| HeadlineRuns.FinishingCanPutHeadlineAhead | src/pheasant/jobs.py:544-554 | and three reports after which finishing the last source puts the headline ahead |
| HeadlineRuns.CreatedActive | src/pheasant/jobs.py:427-454 | every creation of a job begins such a run |
| JobRollup.NamedUpdateLeavesNoStar | src/pheasant/jobs.py:486-494 | a named update leaves no placeholder record, has a record of that name, and keeps names unique |
| JobRollup.NamedUpdateExactly | src/pheasant/jobs.py:486-494 | a named update goes to the record of that name, made when there is none; the placeholder goes and every other record stays |
| JobRollup.UnnamedUpdateOfOne | src/pheasant/jobs.py:486-494 | an update that names none goes to the only record of a job of one |
| JobRollup.UnnamedUpdateExactly | src/pheasant/jobs.py:486-494 | and otherwise to the placeholder, changing no named record |
| JobRollup.TargetsAreSeeded | src/pheasant/jobs.py:436-448 | a new job has a queued record for each target and no other |
| JobRollup.ProgressKeepsTerminal | src/pheasant/jobs.py:477-506 | a progress update never changes what a source ended as |
| JobRollup.FinishKeepsTerminal | src/pheasant/jobs.py:527-529 | finishing the job or another source never overwrites how a source ended; finishing the job ends every source that had not |
| JobRollup.FinishedJobIsComplete | src/pheasant/jobs.py:530-533 | a finished job whose total is known and non-zero stands at it |
| JobRollup.EndedJobOfNone | src/pheasant/jobs.py:530-533 | a job without sources that has ended reads as how it ended |
| RegistryRuns.EvictionAt | src/pheasant/jobs.py:790-803 | eviction drops only finished jobs that the order lists and leaves every other as it was, repeated ids or not |
| RegistryRuns.EvictionKeepsOrder | src/pheasant/jobs.py:795-803 | the order loses exactly the first entry of each dropped job and keeps the rest in place |
| RegistryRuns.EvictionDropsOldest | src/pheasant/jobs.py:796-801 | a dropped job is first listed after no finished job that stays |
| RegistryRuns.EvictionCount | src/pheasant/jobs.py:792-803 | eviction drops as many as the order is past the cap, or every finished job it lists, and table and order shrink by that many |
| RegistryRuns.ClearRemovesExactly | src/pheasant/jobs.py:717-731 | in any run a clear removes exactly the jobs that have ended and that it names, or all that have ended when it names none, and leaves every other as it was |
| RegistryRuns.ClearKeepsOrder | src/pheasant/jobs.py:729-730 | the order then loses exactly the entries that have no job, and nothing when no job left |
| RegistryRuns.OrderMatchesJobsExactly | src/pheasant/jobs.py:449-452 | over a run the order lists exactly the jobs there are, each once, if and only if no job is created while one of its id is in the table |
| RegistryRuns.OrderGrowsWithReuse | src/pheasant/jobs.py:449-452 | syncing one source n times leaves n entries for its one job, past any cap |
| RegistryRuns.ReusedIdIsEvictedEarly | src/pheasant/jobs.py:790-803 | creating another job then evicts the finished one, although the table holds a single job, and leaves its other entries without a job |
| RegistryRuns.EvictsExactly | src/pheasant/jobs.py:790-803 | eviction drops anything if and only if the order is past the cap and lists a finished job |
| RegistryRuns.CreateKeepsFinished | src/pheasant/jobs.py:449-452 | a create keeps all finished jobs of other ids while the order has room, and one fewer for each entry past the cap |
| RegistryRuns.FinishedLostExactly | src/pheasant/jobs.py:62-63 | "how many completed jobs to keep": in any run a create loses a finished job of another id if and only if the order already has as many entries as the cap, running and repeated ones included, and there is one to lose; with a cap of at least one, this is exactly when it keeps fewer than there are and the cap allows |
| RegistryRuns.RunningJobsCount | src/pheasant/jobs.py:62-63 | running jobs alone do it: with a cap of one and no id used twice the one finished job is lost when another job is created |
| RegistryRuns.RunningExactly | src/pheasant/jobs.py:62-63 | in every run an id is running if and only if it was created and not finished since, whatever else is created, finished, cleared or evicted |
| RegistryRuns.RegistryIsBounded | src/pheasant/jobs.py:790-803 | in every run the table never holds more than the cap or, if larger, the most jobs that ever ran at once |
| RegistryRuns.JobsStayCoherent | src/pheasant/jobs.py:351-555 | in every run, reused ids included, each job has one record per source, a running job's counter and total derive from them, and a finished one has no active record and stands at a known total |
| RegistryRuns.FinishedJobChangesExactly | src/pheasant/jobs.py:59-60 | "a job in any of these will never change again" fails for exactly two calls: a create of its id, and a finish of it that says another status, error, result or time |
| RegistryRuns.FinishedJobCanChange | src/pheasant/jobs.py:518-534 | for any job created and finished: creating its id again makes it run, and a second finish overwrites the first, with the same status too |
| GraphRefresher.NoLostPublication | src/pheasant/cli.py:685-734 | whenever the refresher sleeps with the wake flag clear, the stamp seen is the published one, or an announcement is still on its way, or one was missed since the last look |
| GraphRefresher.OnePassCatchesUpExactly | src/pheasant/cli.py:757-779 | one undisturbed pass of the loop whose reload does not raise sees the published stamp, from any state of any run, and leaves its graph loaded if and only if that stamp is not the one seen before or its graph was loaded already |
| GraphRefresher.LoadedNotOlderThanSeen | src/pheasant/cli.py:731-735 | the loaded graph is never older than the stamp seen, unless a reload raised since the last that did not |
| GraphRefresher.BehindExactly | src/pheasant/cli.py:731-735 | over every run, outside a reload, the loaded graph is older than the stamp seen if and only if a reload of a newer stamp raised and none has loaded since |
| GraphRefresher.RaisedReloadIsNotRetried | src/pheasant/cli.py:778-779 | against "will retry": until something is published again no number of polls reloads |
| GraphRefresher.RaiseLeavesStaleGraph | src/pheasant/cli.py:734-735 | a run of one publication and one raise that ends with a graph older than the stamp seen |
| GraphRefresher.AnnouncementsAddUp | src/pheasant/cli.py:700-707 | in every run each publication has one announcement, still to be sent, on its way, or delivered or missed once |
| GraphRefresher.MissedExactly | src/pheasant/cli.py:673-677 | an announcement counts as missed if and only if it was dropped, or sent to nobody, since the refresher last looked |
| GraphRefresher.FailedExactly | src/pheasant/cli.py:734-735 | a reload counts as failed from when it raised until one loads |
| GraphRefresher.AnnouncementIsLoaded | src/pheasant/cli.py:761-769 | an announcement sent to a subscribed, sleeping refresher wakes it and what was published is loaded within one pass of the loop |
| GraphRefresher.SubscribedPublication | src/pheasant/cli.py:700-711 | and such a state is reached: the refresher subscribes and a graph is published |
| ProgressEmitter.Emitter.constructor | src/pheasant/cli.py:1369-1376 | an emitter starts with nothing printed |
| ProgressEmitter.Emitter.Emit | src/pheasant/cli.py:1388-1416 | after any stream of calls the printed lines are those the stream calls for |
| ProgressEmitter.SourcesAreIndependent | src/pheasant/cli.py:1369-1372 | the lines of a source are exactly those an emitter of its own would print for its updates alone |
| ProgressEmitter.WithheldExactly | src/pheasant/cli.py:1396-1404 | an update is withheld if and only if its source's last line has its phase, is under 25 items behind and under a second old |
| CodeBlocks.Blocks | src/pheasant/assistant/compose_review.py:249-272 | the loop with its buffer of lines returns the blocks of the code |
| CodeBlocks.BlocksAreLossless | src/pheasant/assistant/compose_review.py:249-272 | joining the block texts line to line gives the code back |
| CodeBlocks.BlocksEndWhereTheyBalance | src/pheasant/assistant/compose_review.py:259-271 | each block starts with the line its header is read from, has more braces opened than closed up to any line before its last, and no more in all unless it is an unfinished last one |
| CodeBlocks.HeaderIsRead | src/pheasant/assistant/compose_review.py:50-53 | a line where the header pattern matches is read as its keyword and first label |
| CodeBlocks.HeaderWasThere | src/pheasant/assistant/compose_review.py:50-53 | no other line is read as a header |
| CodeBlocks.DeclaredComponents | src/pheasant/assistant/compose_review.py:281-296 | counting keywords in a dictionary and taking the largest types exactly the blocks of the primary kind |
| CodeBlocks.PrimaryIsMostUsed | src/pheasant/assistant/compose_review.py:290-295 | the primary keyword heads the most labelled blocks and, among equals, is the first seen |
| CodeBlocks.DeclaredExactly | src/pheasant/assistant/compose_review.py:281-296 | every block is there whole, and has the type its label gives exactly when it is labelled and no keyword heads more blocks than its own and none seen earlier as many |
| ArtifactKeys.KeysExactly | src/pheasant/assistant/compose_review.py:40-43 | the keys found are exactly the snake-case names the assignment pattern matches at a line start |
| ArtifactKeys.KeysWritten | src/pheasant/assistant/compose_review.py:40-43 | that is, the names that stand first on a line, blanks apart, before a = or : with no = after it |
| ArtifactKeys.SnakeExactly | src/pheasant/assistant/compose_review.py:43 | a snake-case name is two segments or more of lower-case letters and digits with one underscore between each, the first starting with a letter |
| ArtifactKeys.UseWritten | src/pheasant/assistant/compose_review.py:463-464 | a use of a name is one that stands first on a line, blanks apart, before a =, a : or an opening brace |
| ArtifactKeys.PresentWritten | src/pheasant/assistant/compose_review.py:238-239 | a name is present where the characters around it would not lengthen it |
| ArtifactKeys.KeyIsUse | src/pheasant/assistant/compose_review.py:463-464 | every key found is a use of that key |
| ArtifactKeys.PresentJoin | src/pheasant/assistant/compose_review.py:238-239 | a name without a newline is in lines joined together exactly when it is in one of them |
| ComposeReview.OwnPagesOutrankExamples | src/pheasant/assistant/compose_review.py:334-347 | a component with pages of its own is documented by those alone, whatever examples of it other pages carry |
| ComposeReview.NamesPageExactly | src/pheasant/assistant/compose_review.py:310-321 | a page is a component's own exactly when the stem of its title, in any directory and with any extensions, has four characters or more and, in any case, is the component or what it ends in after an underscore, a dot or a slash |
| ComposeReview.TitleHasParts | src/pheasant/assistant/compose_review.py:318 | every title has a directory, a stem and extensions to speak of |
| ComposeReview.ElseExamplesDocument | src/pheasant/assistant/compose_review.py:348-355 | one without is documented by the example blocks of its type, when there are any |
| ComposeReview.UndocumentedExactly | src/pheasant/assistant/compose_review.py:334-438 | a key set on a component is undocumented if and only if nothing that counts there has it: its own pages, unless all were read only in part or there is one and it is blank; without any, the examples of its type; any passage otherwise, and on untyped blocks |
| ComposeReview.ExcerptShowsNothingAbsent | src/pheasant/assistant/compose_review.py:414-434 | where a component's own pages were all read only in part, a key is undocumented only when no passage has it |
| ComposeReview.EvidenceIsInEverything | src/pheasant/assistant/compose_review.py:334-355 | what a component's evidence contains the whole evidence contains |
| ComposeReview.Suspects | src/pheasant/assistant/compose_review.py:407-438 | the loops with their cached scopes return exactly the suspects, in order |
| ComposeReview.SuspectsExactly | src/pheasant/assistant/compose_review.py:410-412 | the suspects are exactly the keys undocumented on some component |
| ComposeReview.SuspectsOfExactly | src/pheasant/assistant/compose_review.py:418-438 | for any code, none included |
| ComposeReview.SuspectsAreDistinct | src/pheasant/assistant/compose_review.py:435-438 | each key is suspected once |
| ComposeReview.SuspectsNameTheirFirstComponent | src/pheasant/assistant/compose_review.py:427-437 | and is reported on the first component it is undocumented on |
| ComposeReview.DocumentedIsNoSuspect | src/pheasant/assistant/compose_review.py:459-471 | an identifier documented wherever a typed block sets it is no suspect, on excerpted pages or in untyped blocks either |
| ComposeReview.CollectIssues | src/pheasant/assistant/compose_review.py:553-577 | the loop over the reviewer's entries keeps the issues the review is about |
| ComposeReview.IssuesExactly | src/pheasant/assistant/compose_review.py:553-577 | the issues are exactly the entries about non-empty names the code contains that their own evidence does not document |
| ComposeReview.HoldsExactly | src/pheasant/assistant/compose_review.py:557-569 | an entry holds if and only if its name is not empty, stands somewhere in the code, and is not documented wherever typed blocks use it |
| ComposeReview.IssuesAreFirstEntries | src/pheasant/assistant/compose_review.py:553-577 | each issue is an entry of the reply, problem and fix included, the first about its name of those that hold |
| ComposeReview.IssuesAreDistinct | src/pheasant/assistant/compose_review.py:553-577 | and no name has two |
| ComposeReview.RunReview | src/pheasant/assistant/compose_review.py:488-601 | the review as it runs, for every reply or none |
| ComposeReview.ReviewExactly | src/pheasant/assistant/compose_review.py:513-587 | without a usable reply every suspect is unknown and nothing is an issue; with one, unknown are exactly the suspects on a component neither cleared nor reported |
| ComposeReview.ReviewSaysSo | src/pheasant/assistant/compose_review.py:488-551 | the review says whether there was an artifact, a usable reply, and a failure to get one; without one every suspect is unknown |
| ComposeReview.PassagesOutrankTheReviewer | src/pheasant/assistant/compose_review.py:564-587 | for every reply or none, an identifier the passages document on every component where the artifact sets it is neither an issue nor unknown |
| KeysetPaging.PageExactly | src/pheasant/analytics.py:541-557 | a page holds the least keys past the last one, in order, and is short only when it holds them all |
| KeysetPaging.StreamTable | src/pheasant/analytics.py:540-564 | the generator, followed through any versions of the table, and whether it has returned |
| KeysetPaging.YieldedKeysIncrease | src/pheasant/analytics.py:540-564 | with the table changing arbitrarily between reads the yielded keys strictly increase: no row twice |
| KeysetPaging.YieldedWasRead | src/pheasant/analytics.py:558-560 | every yielded row was in the table at one of the reads made |
| KeysetPaging.SteadyRowIsYielded | src/pheasant/analytics.py:540-564 | a row present at every read made is yielded as soon as the stream has passed its key, and by the time it ends |
| KeysetPaging.UnchangedTableStreamsWhole | src/pheasant/analytics.py:540-564 | on a fixed table of n rows the pages concatenate to it in key order after exactly ⌊n / batch⌋ + 1 reads |
| GraphPages.NodePages | src/pheasant/analytics.py:567-588 | the pages hold the rows in order, every one full but the last and none empty |
| GraphPages.EdgePages | src/pheasant/analytics.py:592-614 | every parallel edge is a row, once and in order; no pair is split between pages; the size is checked once for each pair, so every page but the last has at least the batch and none is over it by more than its last pair |
| GraphPages.EdgeRowAt | src/pheasant/analytics.py:592-614 | the k-th parallel edge of the i-th pair is the row that as many rows precede as there are edges before it, with the ends of its pair and its own data |
| EnvQuote.UnquoteQuote | src/pheasant/setup_wizard.py:2098-2102 | for every value, reading the quoted text back gives the value |
| EnvQuote.EscapedStep | src/pheasant/setup_wizard.py:2101 | the three replacements in turn escape each character once |
| EnvQuote.BareExactly | src/pheasant/setup_wizard.py:2099-2102 | a value is written bare if and only if it is not empty and has no white space, comment sign, quote, dollar, backtick or backslash; any other stands between double quotes |
| TextLines.WrittenSplits | src/pheasant/setup_wizard.py:2094-2095 | reading back what is written for some lines gives them, less the empty ones at the end |
| EnvMerge.PlainIsRead | src/pheasant/setup_wizard.py:2064 | an assignment is read from the start of its line, a variable named export included |
| EnvMerge.ExportedIsRead | src/pheasant/setup_wizard.py:2064 | an assignment after export and spaces is read from there |
| EnvMerge.ReadWasThere | src/pheasant/setup_wizard.py:2064 | no other line is read as an assignment |
| EnvMerge.LastAssignments | src/pheasant/setup_wizard.py:2076-2080 | the dictionary maps each assigned name to the last line that assigns it |
| EnvMerge.MergeEnvFile | src/pheasant/setup_wizard.py:2067-2095 | the loops return the merged text and the names added and updated |
| EnvMerge.MergeIsOverrideExactly | src/pheasant/setup_wizard.py:2070-2074 | last-assignment lookup after the merge is the old lookup overridden, each name set reading back, unquoted, as its value and every other as before, for all names if and only if every value is on one line |
| EnvMerge.OtherLinesKeepTheirPlace | src/pheasant/setup_wizard.py:2085-2090 | every line keeps its place, unless it is the last assignment of a name being set, which becomes the rendered entry |
| EnvMerge.AddedLinesComeLast | src/pheasant/setup_wizard.py:2091-2093 | new lines follow all existing ones, one for each name set that nothing assigned |
| EnvMerge.SecondMergeIsQuiet | src/pheasant/setup_wizard.py:2072-2073 | merging the same one-line values again reports nothing and writes the same text |
| EnvMerge.SecondMergeQuietExactly | src/pheasant/setup_wizard.py:2072-2073 | for any file a second merge is quiet if and only if no value has a line break in it |
| EnvMerge.TwoLinesAreRewritten | src/pheasant/setup_wizard.py:2072-2073 | for one: a name set to two lines is reported again by every merge, into any file |
| Targets.RenamedMovesClone | src/pheasant/targets.py:93-109 | renaming moves the checkout under the new name, keeps the place inside it, and everything else |
| Targets.FreeName | src/pheasant/targets.py:459-465 | the loop terminates with the first free candidate |
| Targets.FreeFromExactly | src/pheasant/targets.py:459-465 | that candidate is free and every one before it is taken |
| Targets.CandidatesDiffer | src/pheasant/targets.py:464 | no two candidates of a base are the same name |
| Targets.MergeUrls | src/pheasant/targets.py:430-442 | the loop returns the merged URLs |
| Targets.MergedExactly | src/pheasant/targets.py:430-442 | existing URLs first and in place, then every new one once |
| Targets.ResolveTargets | src/pheasant/targets.py:476-496 | the loop over what the specs resolve to returns the placed targets |
| Targets.PageJoinsItsSite | src/pheasant/targets.py:445-456 | a second page of one site joins the first: its URLs are merged in, everything else and every other target stay |
| Targets.OtherIsAdded | src/pheasant/targets.py:492-495 | any other target is added last, under its own name when that is free and else under the first of name-2, name-3, ... that is |
| Targets.NamesAreDistinct | src/pheasant/targets.py:476-496 | result names are pairwise distinct and every clone is in the directory its name gives it |
| Targets.ClonesAreDistinct | src/pheasant/targets.py:96-98 | no two repositories share a clone directory |
| Targets.CachesAreDistinct | src/pheasant/targets.py:107-108 | no two remote sources share a cache directory |
| Targets.EarlierTargetsKeepTheirPlace | src/pheasant/targets.py:433-435 | later specs leave every earlier target in place and only add URLs at its end |
| Targets.EveryInputStands | src/pheasant/targets.py:481-495 | every input stands in the result with all its URLs and the repository it clones |
| Targets.EveryUrlWasNamed | src/pheasant/targets.py:488-491 | every URL in the result comes from an input of that kind |
| Releases.TupleOrderIsPrecedence | scripts/sync_version.py:395-396 | comparing tuples is the precedence of item 11 of Semantic Versioning 2.0.0 |
| Releases.RenderParse | scripts/release_version.py:135-136 | a version printed is read back as itself, with or without a leading v |
| Releases.ParseRender | scripts/sync_version.py:23-27 | only the printed form of a version is read as it |
| Releases.LatestIsGreatest | scripts/release_version.py:130-132 | the latest version is a published one that none published is above, and there is one when any tag is stable |
| Releases.LatestOfSet | scripts/release_version.py:130-132 | it does not depend on the order a set of tags is listed in |
| Releases.ReleaseOptions | scripts/release_version.py:146-153 | an unstable project version exits; otherwise the options are the increments of the base whose versions are not tags |
| Releases.OptionsAreUnpublished | scripts/release_version.py:146-153 | an increment is offered if and only if its version is no tag, with or without a leading v |
| Releases.NextIsAbove | scripts/sync_version.py:72-86 | every increment of the base is above the project's version and every published tag |
| Releases.NextIsLeast | scripts/sync_version.py:72-87 | an increment is the least version above that differs in its own number or one to the left of it |
| Releases.BumpExactly | scripts/sync_version.py:72-87 | it exits for exactly what is no stable version or no increment, and otherwise prints that version |
| Releases.AcceptedExactly | scripts/sync_version.py:383-402 | the later check accepts exactly the stable versions above every published one |
| Releases.RefusedExactly | scripts/sync_version.py:383-402 | and says which it is: unstable, published, or not above |
| Releases.EveryOptionIsAccepted | scripts/release_version.py:146-153 | for every stable project version and set of tags all three increments are offered, and the later check accepts each |
| Releases.StrongestServesAll | scripts/release_version.py:348-358 | the strongest bump is one that was asked for, and its version is at least what each request alone would give |
| Releases.PublishedBecomesBase | scripts/release_version.py:139-143 | once published a release is what the next is counted from |
| Releases.EveryReleaseIsAccepted | scripts/release_version.py:146-153 | over any run of releases each is accepted against everything published before it |

## Left out

- Sharding.Nodes: 6.3 nodes per file is the exact fraction 63/10, truncated; binary floating point is not modelled. The bounds use only that the count is monotone and positive on files.
- Memory projections, recommended limits, and the wording of warnings, compose files and READMEs: text with no hard property.
- PromotionGate.RunKeepsInv: threads are steps of one machine rather than objects; the supervisor is the one the indexer builds, with a reconciliation and a sync lock; the lease is a grant that can be lost at any step, and draining is a sequence of claims.
- PromotionExit.StopEndsElection: the way out is counted in moves of the election thread, not in time; how long the joins of a stop wait, and metrics, are not modelled.
- PromotionGate.DemotedClaimsExactlyWhenPastCheck: a drainer's check of its stop event and its wait for the gate are separate steps, as two lines of one loop are; how long the bounded join waits is not modelled.
- SnapshotRuns.LiveJobStaysRunning: all processes read one clock, a reap's two reads of a file are one, and writing the temporary file and moving it into place are one step, so a snapshot is dated at its replacement and not the moment before it at which the temporary file was written; a snapshot that cannot be parsed or written, and the wall-clock fields a read refreshes, are not modelled.
- SnapshotStore.Store.Evict: finished snapshots are dropped one oldest at a time instead of by sorting once; which of two equally old ones goes first is open.
- SourceProgress.Progress.Observe: clock readings are integers; a failure is its text.
- JobRegistry.Registry.Progress: job objects are values in the registry's table, so what another thread does to a job it still holds is not modelled; log lines and subscribers are left out, and publishing is in SnapshotProtocol.
- JobRegistry.Registry.Finish: a result is its serialized text.
- RegistryRuns.RunningExactly: jobs are finished with a terminal status, as every caller does; RegistryRuns.JobsStayCoherent asks the same.
- JobRollup.HeadlineIsLeastExactly: the clock has moved on since the other sources' updates; between equal readings the first record wins.
- GraphRefresher.NoLostPublication: stamps are numbers that grow with each publication, and the graph loaded at construction is the published one.
- ProgressEmitter.Emitter.Emit: one call under the emitter's lock is one step; the JSON line is the update itself.
- CodeBlocks.HeaderIsRead: word characters are ASCII letters, digits and the underscore.
- ArtifactKeys.PresentJoin: lower-casing is character by character and ASCII.
- ComposeReview.PassagesOutrankTheReviewer: fenced blocks are given, the artifact's own names are any set, and a reply's texts come trimmed and cut to length; the checks for required arguments, unresolved variables, undocumented types, omissions and purpose are separate lists and left out.
- KeysetPaging.YieldedKeysIncrease: keys are ranks in the database's own ordering and a key is never null.
- EnvMerge.MergeEnvFile: the text is as read with newline translation; file modes, directories and the write itself are left out.
- EnvQuote.UnquoteQuote: reading a quoted value is the usual reading of double quotes with backslash escapes, which the repository does not contain.
- Targets.ResolveTargets: it starts from what each spec resolves to; classifying specs, globs, symbolic links and cloning are left out, and a name is one path component.
- Releases.ReleaseOptions: digits are ASCII; reading pyproject.toml and the registry are inputs.
- Releases.EveryReleaseIsAccepted: the project's own version stays as it was between releases.
- HTTP, OAuth and UI code, model calls, retrieval, workflows, git, DuckDB and Parquet: input and output around code that is not part of this model.
- Capacity recommendations, decision records, request budgets, evaluation sets and conversation carry-over: only easy members.
