# CMesh manager, modelled and verified in Dafny

CMesh turns a handful of machines into one cluster. Its manager is a job scheduler, a coordinator for models
that are split over several workers (the "CDIP" protocol), and a set of planners. This project models those
parts and proves what a maintainer relies on. `dafny verify dfyconfig.toml` checks everything.

## What is modelled

**The scheduler.** `Scheduler.dfy` says what each operation of the manager's state does, as a relation between
the state before and after. Map iteration order, ties between equally good workers, and the choice among a
worker's scheduled jobs are left open, so a theorem about a relation holds for every order. `State.dfy` is the
object itself: a class with the maps the manager keeps, whose methods change them in place and are proved to
refine the relations. `Lifecycle.dfy` is the life of one job, `LoopFacts.dfy` the two scheduling loops,
`StepFacts.dfy`, `Placement.dfy` and `Runs.dfy` what every single operation keeps, `Promises.dfy` what each does to
the fields of workers and jobs, said without the scheduler's own functions, `Retry.dfy` where a failed job goes,
`Unassigned.dfy` what becomes of jobs that are left to their coordinator, and `History.dfy` what holds over whole runs
of any operations in any order:

- no worker gets more active jobs than it had or than its slots, and active jobs sit on online workers, but for the
  CDIP stages that are started regardless of their worker (see below);
- a worker that goes offline or times out is left with nothing, and its jobs land only on live workers;
- a job's attempt counter is exactly the number of times it was dispatched and never passes its limit, and it
  changes at most `3 * maxAttempts + 1` times before it ends;
- after a join, heartbeat, completion or cancel nobody waits for a worker that could take the job, and it is
  settled which other operations keep it so (see below).

**The CDIP coordinator.** `Coordinator.dfy` is a transition system: any number of coordinators, each holding a
stale listing of the stage jobs and a position in its update loop, interleave one atomic store call at a time
with each other and with everything else in the manager. `Barrier.dfy` proves that stages advance together
(none enters prefill before all were ready, none decode before all were in prefill, none completes before all
were in decode) and that the parent is closed only when every stage is complete for good. `Alignment.dfy` proves that
no stage is left behind: while the stages are split across two phases, some coordinator is on its way to the ones
behind. `Progress.dfy` proves that a coordinator running alone gets on to the next phase unless it gives up after its
snapshot, that from every start some run completes all stages and commits, and that parents that have ended or have
fewer than two stages are left alone.

**The distributed planner.** `Selection.dfy` picks the workers, `Split.dfy` cuts the layers, `Fit.dfy` says whether
the stages fit their workers, and `Handoff.dfy` and `Delivery.dfy` follow the plan through the shard manifest, the
stage jobs, their listing, the prepare messages and the worker's own check. The stage jobs of any plan are created; the manifest, the
prepare messages and the workers accept it exactly when there are no more stages than layers. `ShardPlan.dfy` is the catalog's placement planner.

**The rest.** `Relay.dfy` is the bounded activation streams and the decode loop over them; `Matrix.dfy` the
in-place multiply kernel; `Conversations.dfy` and `Prompt.dfy` the stored window and the prompt budget;
`RpcPool.dfy` and `RpcPlan.dfy` the ranking of RPC endpoints and the plans made on them; `Runner.dfy` the
worker's concurrent poll loop. `Options.dfy`, `Finite.dfy`, `Text.dfy`, `Jobs.dfy` and `Cdip.dfy` hold what they share.

## Where the code falls short of the obvious promise

Each of these comes with an input that breaks it and with the exact condition under which the promise does hold,
stated before the call but for the one exception noted.

- *Retry elsewhere.* A failed job excludes the worker that failed it, but only for the first pick. Some outcome of the
  call hands the job straight back if and only if it has attempts left, no other worker can take it, and its own still
  serves it with a slot to spare once this one is freed (`Retry.RetryMayReturnExactlyWhen`). If nothing else waits,
  every outcome does (`Runs.FailedJobReturns`). `Retry.OnlyWorkerGetsItBack` is a cluster of one worker.
- *Slots are respected and active jobs are on online workers.* Telling a queued stage to prepare starts it on its
  worker regardless. A step overfills a worker if and only if it does that on a full one (`Runs.StepKeeps`), and newly
  puts a job on a worker that is not online if and only if it does that on such a one (`Runs.StepStrays`);
  `Runs.StageOverfillsWorker` does both.
- *Nobody waits in vain.* Ending a CDIP stage or closing a distributed job frees a slot without offering the
  queue, and a create request can hide its job from idle workers. `Runs.StepConservesWork` says exactly when a single
  operation disturbs the queue, and `Runs.FreedSlotCanIdle` is one that does. For a batch it is exactly when one of its
  own bypassing requests ends up waiting for a worker that could take its job (`Runs.BatchConservesWorkExactlyWhen`),
  which can depend on ties between workers and so is a condition on the outcome.
- *An ended job keeps its outcome.* Two coordinator calls look at the CDIP state or at nothing, not at the job's
  status, so a canceled or failed job may become succeeded. `Runs.EndIsRewrittenOnly` says exactly when;
  `Runs.CanceledCanSucceed` is such a job, and `Barrier.CommitOverridesCancel` shows how a cancel is lost to a commit.
- *A plan fits its workers.* Layers are rounded after the memory check, and follow memory alone. Every stage fits if and
  only if each worker has room, in exact proportion, for the layers it would get (`Fit.PlanFitsExactlyWhen`), which can
  be computed from the chosen workers. `Fit.PlanCanOvercommit` is a plan that asks one byte too much,
  `Fit.LastStageCanOvercommit` one whose last stage, which absorbs the rounding of the others, misses by almost a layer,
  and `Fit.DiskCanOvercommit` one that misses on disk. `Fit.StageNearlyFits` bounds the miss on memory for every stage.
- *Every stage gets a layer.* Exactly when there are no more stages than layers (`Split.EveryStageHasALayer`);
  the selection itself does not look at the layer count. `Split.StageCanBeEmpty` has three workers for two layers.
- *RPC plans avoid the coordinator and busy workers.* An endpoint that several workers announce is judged by the first
  of them, in the order of their names. The backends avoid such workers if and only if no endpoint that one of them
  announces is eligible and among the eight best (`RpcPlan.PlanAvoidsTakenWorkers`); one worker per endpoint is enough
  (`RpcPlan.OneOwnerIsEnough`).
  `RpcPlan.CoordinatorCanBeBackend` is an executable plan that names its own coordinator as a backend.
- *A job with automatic assignment off waits for its coordinator.* The scheduling loop does not look at how a job was
  created: it may dispatch a queued job if and only if the job names no worker and some worker can take it
  (`Unassigned.QueueMayDispatchExactlyWhen`). A job created with automatic assignment off is in that state if and only
  if its request names no worker (`Unassigned.UnassignedWaits`); if it names one and is no stage, it is never dispatched
  in any run (`Unassigned.NamedIsNeverDispatched`). `Unassigned.ParentCanBeDispatched` is a distributed parent handed
  out by a heartbeat. It has one attempt, so a worker's error then fails the whole job
  (`Unassigned.ErrorEndsJobExactlyWhen`).
- *The prompt keeps to its history budget.* A newest message that is too long is cut by its content alone, not by its
  role and fixed cost. The budget is met if and only if the newest message, so cut, costs no more than it
  (`Prompt.BudgetIsMetExactlyWhen`; `Prompt.CutFitsExactlyWhen` says when that is in terms of lengths).
  `Prompt.CutCanExceedBudget` is a message of 1025 letters that costs five tokens too many; seven is the most there can
  be (`Prompt.SelectionFitsBudget`).

## Modelling choices

- `now` is one clock reading per operation, and runs have non-decreasing readings. Fresh job and node
  identifiers are parameters, assumed new and non-empty.
- Benchmark scores are reals. The layer split is in exact integer arithmetic; byte counts are unbounded naturals.
- `sort.Slice` is not stable, so a sorted list is a parameter: any arrangement that the comparison allows.
- Marshalling a job's input and reading it back is the identity on a datatype; result notes are values too.
- The network is a parameter: which endpoints answer a probe, and what a worker reports.

## Model

| member | source | states |
|---|---|---|
| ManagerState.State.constructor | internal/manager/state.go:35-46 | a new manager has no workers and no jobs, and is valid |
| ManagerState.State.ActiveJobs | internal/manager/state.go:929-940 | the count equals the number of scheduled or running jobs of the worker, for any map order |
| ManagerState.State.PickWorker | internal/manager/state.go:879-907 | a live worker with enough of each resource and a free slot that scores highest among those not excluded; "" exactly when there is none |
| ManagerState.State.CanAccept | internal/manager/state.go:909-915 | true exactly for a live worker that meets the requirements and has a free slot |
| ManagerState.State.FindWaitingReason | internal/manager/state.go:917-927 | the waiting note: whether some live worker meets the requirements at all |
| ManagerState.State.VisitQueued | internal/manager/state.go:847-872 | one waiting job is dispatched to a best eligible worker, or keeps waiting with a note when there is none |
| ManagerState.State.ScheduleQueuedJobs | internal/manager/state.go:845-873 | every queued, unassigned job is offered once, in some order, each offer seeing the slots the earlier ones took |
| ManagerState.State.RescheduleOrFail | internal/manager/state.go:125-159 | below the limit the job moves to the best other worker or back to the queue; at the limit it fails |
| ManagerState.State.FailActiveJobs | internal/manager/state.go:112-123 | every active job of the worker is rescheduled or failed, in some order |
| ManagerState.State.RegisterWorker | internal/manager/state.go:48-73 | the join is one step of the model, and afterwards no job waits that a worker could take |
| ManagerState.State.ReceiveHeartbeat | internal/manager/state.go:75-91 | an unknown worker changes nothing; a known one comes online and the queue is settled |
| ManagerState.State.MarkWorkerOffline | internal/manager/state.go:93-110 | an unknown worker changes nothing; a known one ends with no active job |
| ManagerState.State.VisitNode | internal/manager/state.go:996-1004 | a node is taken offline, and its jobs moved, exactly when its heartbeat timed out |
| ManagerState.State.ListNodes | internal/manager/state.go:990-1018 | lists each node once, in a state where the timed-out ones are offline |
| ManagerState.State.PlaceJob | internal/manager/state.go:288-307 | the job is placed as the request asks: pinned when the named worker can take it, picked, or left waiting |
| ManagerState.State.CreateJob | internal/manager/state.go:268-311 | one new job, nothing else changed |
| ManagerState.State.CreateJobsBatch | internal/manager/state.go:313-359 | the requests are placed in order, each seeing the slots the earlier ones took, and returned in order |
| ManagerState.State.NextJobForWorker | internal/manager/state.go:380-398 | hands out a job scheduled on the worker and marks it running; none exactly when the worker has none |
| ManagerState.State.CompleteJob | internal/manager/state.go:400-431 | accepts exactly a report from the worker that holds the job, while it is running or canceled; one without an error leaves it succeeded with the reported result |
| ManagerState.State.UpdateJobProgress | internal/manager/state.go:433-446 | accepts exactly a report from the worker that runs the job, and changes only its note |
| ManagerState.State.CancelJob | internal/manager/state.go:825-843 | cancels exactly a job that has not ended, and settles the queue |
| ManagerState.State.UpdateCdipStageState | internal/manager/state.go:448-491 | moves a stage job exactly where it may go, failed and aborted included while it is under way, and records the new status, detail and times |
| ManagerState.State.CompleteCoordinatorJob | internal/manager/state.go:493-514 | closes exactly a distributed job, whatever its status |
| Promises.PickMeans | internal/manager/state.go:879-977 | the worker picked is online, heard from within 30 seconds, has the cores, memory, storage and compatible GPU memory asked for and a free slot, and none such scores higher; none is picked exactly when there is none such |
| Promises.ScheduledWhereItFits | internal/manager/state.go:845-977 | every worker on which any operation but a stage move newly schedules a job is live and has at least what the job asks for |
| Promises.WaitsOnlyWhenNobodyCan | internal/manager/state.go:845-873 | while work is conserved, a job that waits finds no live worker with a free slot and enough resources |
| Promises.QueueOffersOnce | internal/manager/state.go:845-873 | a pass of the queue leaves each job alone, dispatches it with one more attempt and a clean slate, or refreshes its waiting note |
| Promises.RetryMeans | internal/manager/state.go:125-159 | with attempts left a failed job goes to the best other worker, or to the queue if there is none, keeping the reason; at the limit it fails with the reason |
| Promises.PlacementMeans | internal/manager/state.go:268-311 | a new job carries its request, is left to its coordinator, put on the worker it names or on the best one, and otherwise waits with a note that says why |
| Promises.StageMovesExactlyWhen | internal/manager/state.go:448-491 | a stage move takes effect if and only if it stays, goes one phase on, or fails or aborts a stage under way; then status, detail and times are recorded, and otherwise nothing changes |
| Promises.StageCanEnd | internal/cdip/types.go:328-348 | from every valid state a stage that is under way can be failed and aborted in one move, and ends failed or canceled with the trimmed detail |
| Promises.SuccessIsRecorded | internal/manager/state.go:400-431 | an accepted report without an error leaves the job succeeded with exactly the reported result, or the summary of a model deletion, after the queue was settled too |
| Promises.FailureIsRecorded | internal/manager/state.go:400-431 | an accepted report with an error, and no attempt left, leaves the job failed with exactly that error and result |
| Promises.ListingMeans | internal/manager/state.go:990-1018 | listing takes exactly the workers silent for more than 30 seconds offline, leaves them nothing, touches no other job, and every job that moved says why |
| Promises.OfflineMeans | internal/manager/state.go:93-123 | a worker marked offline is so from now on, has nothing left, no other job changes, and every job that moved says why |
| Promises.CancelIsRecorded | internal/manager/state.go:825-843 | a job that has not ended is canceled by the operator and stays so while the queue is offered; an ended one changes nothing |
| Promises.CloseIsRecorded | internal/manager/state.go:493-514 | a closed distributed job failed exactly when there was an error to tell, and keeps result and error trimmed |
| Lifecycle.MoveFacts | internal/manager/state.go:125-159 | any move keeps a job's accounting, adds an attempt exactly when it dispatches, uses up the measure of remaining changes, and never revives an ended job |
| Lifecycle.EndsStayAgreed | internal/manager/state.go:448-491 | no move breaks "CDIP completed, failed or aborted means job succeeded, failed or canceled" |
| Lifecycle.PinnedMove | internal/manager/distributed.go:875-888 | any move leaves a stage job on its worker and its CDIP state on an allowed transition |
| LoopFacts.QueueVisitsEffect | internal/manager/state.go:845-873 | for any order of offers: only dispatches within slots to workers that serve the job happen |
| LoopFacts.QueueConservesWork | internal/manager/state.go:845-873 | after the scheduling loop no job waits that a worker could take |
| LoopFacts.FailsActiveJobsEffect | internal/manager/state.go:112-159 | losing a worker empties it, and only live workers with free slots receive its jobs |
| LoopFacts.FailVisitsConserveWork | internal/manager/state.go:112-159 | losing a worker leaves nobody waiting for a worker that could take the job, if nobody did before |
| StepFacts.CreatesConservesWork | internal/manager/state.go:288-307 | creating a job keeps work conserved if and only if the request does not bypass an eligible worker |
| StepFacts.CreatesBatchKeeps | internal/manager/state.go:313-359 | a batch keeps the state valid and within slots, and leaves every older job as it was |
| StepFacts.LosingKeeps | internal/manager/state.go:99-110 | a worker that goes offline ends empty; the state stays valid |
| StepFacts.ListsNodesKeeps | internal/manager/state.go:990-1018 | listing the nodes takes every timed-out worker offline and empties it, moving jobs only to live workers within slots |
| Runs.StepKeeps | internal/manager/state.go:48-514 | every operation keeps the state valid and moves each job by one legal move, and loads a worker beyond its slots if and only if it starts a stage on a full one |
| Runs.StepStrays | internal/manager/state.go:467-475 | an operation newly puts an active job on a worker that is not online if and only if it starts a stage on such a worker |
| Runs.StageOverfillsWorker | internal/manager/state.go:467-475 | a concrete stage move that does both at once |
| Runs.OnlyStageMovesTouchCdip | internal/manager/state.go:448-491 | no other operation changes a stage's CDIP state |
| Runs.EndIsRewrittenOnly | internal/manager/state.go:448-514 | the status of an ended job changes if and only if a coordinator ends its stage differently or closes it with another outcome |
| Runs.CanceledCanSucceed | internal/manager/state.go:493-514 | a canceled distributed job that is closed becomes succeeded |
| Runs.OfflineDrains | internal/manager/state.go:93-123 | after a worker is marked offline: no active job on it, its jobs only on live workers, every other job untouched |
| Runs.ListingDrains | internal/manager/state.go:990-1018 | after listing: no worker is stored online past its timeout, and every active job is on a live worker, except stages that were already on one that was not online |
| Runs.TimePasses | internal/manager/state.go:909-915 | the passage of time alone leaves nobody waiting in vain |
| Runs.FreeingConservesWork | internal/manager/state.go:476-490 | ending a job without offering the queue conserves work if and only if no waiting job fits the freed slot |
| Runs.SettlingConservesWork | internal/manager/state.go:48-91 | a join, a known heartbeat, an accepted report and a cancel leave no job waiting that a worker could take |
| Runs.BatchConservesWork | internal/manager/state.go:313-359 | a batch without bypassing requests keeps work conserved |
| Runs.FreedSlotCanIdle | internal/manager/state.go:476-478 | a stage that completes on the only worker leaves the job that waits for it waiting |
| Runs.StepConservesWork | internal/manager/state.go:845-873 | exactly which single operations keep work conserved, in both directions; for a batch, that one without bypassing requests does |
| Runs.BatchConservesWorkExactlyWhen | internal/manager/state.go:313-359 | a batch keeps work conserved if and only if none of its own bypassing requests ends up waiting for a worker that could take its job |
| Runs.LastBypassDisturbs | internal/manager/state.go:313-359 | a batch whose last request bypasses the workers it meets always disturbs |
| Runs.FailedJobReturns | internal/manager/state.go:400-431 | if nothing else waits and no other worker can take it, the failed job returns to its worker in every outcome of the call |
| Retry.RetryMayReturnExactlyWhen | internal/manager/state.go:125-159 | some outcome of the report hands the job back to the worker that failed it if and only if a stated condition holds before the call; otherwise none does |
| Unassigned.QueueMayDispatchExactlyWhen | internal/manager/state.go:845-873 | some pass of the scheduling loop dispatches a queued job if and only if it names no worker and some worker can take it |
| Unassigned.UnassignedWaits | internal/manager/state.go:288-290 | a job created with automatic assignment off is queued, and open to any worker if and only if its request names none |
| Unassigned.NamedIsNeverDispatched | internal/manager/state.go:845-849 | a queued job that names its worker, and is no stage, stays queued there in every run until it is canceled or closed, without an attempt |
| Unassigned.ErrorEndsJobExactlyWhen | internal/manager/state.go:125-159 | a worker's error ends the job if and only if it has no attempt left |
| Unassigned.ParentCanBeDispatched | internal/manager/server.go:1311-1324 | a distributed parent created with automatic assignment off is dispatched by the next heartbeat |
| Retry.OnlyWorkerGetsItBack | internal/manager/state.go:125-159 | in a cluster of one worker the failed job goes back to it |
| Retry.PickExists | internal/manager/state.go:879-907 | a pick always exists: the loop over workers has an outcome in every state |
| Retry.VisitsExist | internal/manager/state.go:845-873 | the scheduling loop has an outcome for every iteration order |
| History.RunKeepsValid | internal/manager/state.go:35-1018 | every state of every run is valid |
| History.RetriesAreBounded | internal/manager/state.go:125-159 | attempts equal dispatches, never exceed the limit, and an unfinished job changes at most 3 * maxAttempts + 1 times |
| History.TerminalIsForever | internal/manager/state.go:949-953 | once a job has ended no later operation of any run revives or dispatches it |
| History.PinnedForever | internal/manager/distributed.go:875-888 | in every run a stage job stays on its worker, follows the protocol's transitions, and ends in agreement with its job status |
| History.RunWithinSlots | internal/manager/state.go:929-947 | over a run in which no stage is started on a full worker, a worker never carries more than it started with or the most slots it had |
| History.NobodyStrays | internal/manager/state.go:467-475 | over a run in which no stage is started on a worker that is not online, every active job sits on an online worker |
| History.WorkStaysConserved | internal/manager/state.go:845-873 | from one settling operation on, work stays conserved until an operation disturbs it |
| Cdip.ValidateStageChain | internal/cdip/types.go:422-443 | accepts exactly the chains: numbered from 0, named, sharing out the layers between their ends in order, each layer to one stage |
| Cdip.ValidateManifest | internal/cdip/types.go:189-237 | accepts exactly the named manifests whose stages share out layers 0 to total - 1 |
| Cdip.ChainOwnsEachLayer | internal/cdip/types.go:422-443 | in an accepted chain every layer has exactly one stage |
| Cdip.ChainMeans | internal/cdip/types.go:422-443 | consecutive ranges are the same as: every stage has a layer, later stages have later ones, and no layer between the ends is left out |
| Cdip.ManifestMeans | internal/cdip/types.go:189-237 | the checks on a manifest hold if and only if its stages share out exactly the layers of the model and everything is named and of a known kind |
| Barrier.ScriptWaits | internal/manager/distributed.go:253-487 | an update into prefill or beyond comes after the guard, or the same loop, took every stage one phase behind it |
| Barrier.StagesFixed | internal/manager/distributed.go:489-504 | no operation but creating stage jobs changes which stages a parent has |
| Barrier.NewJobIsRequested | internal/manager/state.go:268-359 | a job appears only through a create request, with that request's type and parent |
| Barrier.UpdateIsDue | internal/manager/distributed.go:253-487 | whatever happened since its snapshot, an update a coordinator is about to send is one every stage is ready for |
| Barrier.NextKeepsInv | internal/manager/distributed.go:120-487 | one step of any coordinator or of the rest of the manager keeps the protocol invariant |
| Barrier.BarrierHolds | internal/manager/distributed.go:253-440 | in every run: prefill anywhere means ready everywhere before, decode anywhere means prefill everywhere, completed anywhere means decode everywhere |
| Barrier.MarksRecord | internal/cdip/types.go:328-348 | the marks the barrier is stated with are the furthest phases the stages really were in |
| Barrier.CommitIsSafe | internal/manager/distributed.go:382-487 | when a coordinator closes the parent, its listing holds every stage, all are completed, and they stay so in every later state |
| Barrier.CommitOverridesCancel | internal/manager/state.go:493-514 | a cancel between the last update and the close is overwritten by the close |
| Alignment.NoStageIsStranded | internal/manager/distributed.go:253-487 | in every run, while no stage has failed or been aborted: for each stage behind another, some coordinator is sending that phase's updates and has this stage still to come |
| Alignment.QuietStagesAreTogether | internal/manager/distributed.go:253-487 | when no coordinator is at work, the stages past ready are all in the same phase |
| Progress.LoneCoordinatorAdvances | internal/manager/distributed.go:167-440 | whatever a coordinator running alone on aligned stages does, it is one call further after each, with all stages advanced at the end and the parent closed after decode, unless it gives up after its snapshot with nothing changed |
| Progress.LoneStepExists | internal/manager/distributed.go:167-440 | a coordinator that has not finished always has a next call that does not give up |
| Progress.ListExists | internal/manager/distributed.go:489-504 | the stage jobs of a parent can always be listed in order |
| Progress.CommittingRunExists | internal/manager/distributed.go:120-440 | from every start with an open parent and two or more planned stages some run completes every stage and closes the parent as succeeded |
| Progress.FewStagesAreLeft | internal/manager/distributed.go:120-440 | in every run the coordinators of a parent with fewer than two stages change nothing |
| Progress.LastCallExactlyCloses | internal/manager/distributed.go:382-487 | after its last update a coordinator closes the parent as succeeded exactly when that update said completed, and otherwise changes nothing |
| Progress.EndedParentIsLeft | internal/manager/distributed.go:120-440 | in every run, once a parent has ended its coordinators change nothing, but for those that had read it as open before |
| Selection.SelectWorkers | internal/manager/distributed.go:631-644 | the shortest prefix of two or more workers that holds the model; none when no prefix does |
| Selection.GreedyIsComplete | internal/manager/distributed.go:631-644 | some prefix suffices if and only if some set of two or more candidates does |
| Selection.PrefixIsBest | internal/manager/distributed.go:577-600 | on the sorted list no set of workers has more memory than the prefix of its size |
| Selection.GreedyIsMinimal | internal/manager/distributed.go:631-644 | if disk was met one worker earlier, no smaller set of two or more has enough memory |
| Selection.CandidateListDescends | internal/manager/distributed.go:577-600 | the candidates are usable workers in descending order of net memory |
| Selection.CandidateListMeans | internal/manager/distributed.go:577-600 | the candidates are exactly the online workers with more than 512 MiB and storage to give, by descending memory and then by name; each counts with its memory less 512 MiB and with its free storage |
| Selection.PlanWorkers | internal/manager/distributed.go:506-644 | selection fails exactly when no set of two or more candidates holds the model, and is otherwise the fewest workers unless disk forced it on |
| Split.BuildStages | internal/manager/distributed.go:646-699 | one stage per worker in order, tiling the layers 0 to total - 1; each asks for the least bytes that hold its layers, and 512 MiB of its own |
| Split.StageLayers | internal/manager/distributed.go:662-672 | of the layer counts that take at least one and leave one for each later stage, the one nearest to the exact weighted share |
| Split.ClampedShareIsNearest | internal/manager/distributed.go:662-672 | the clamped, rounded share leaves enough for the later stages and no other admissible count is nearer to the exact share |
| Split.SplitLeavesEnough | internal/manager/distributed.go:662-672 | with no more stages than layers every stage gets a layer and leaves one for each later stage |
| Split.SplitIsExact | internal/manager/distributed.go:646-699 | the layers add up to the model's, whatever the weights |
| Split.EveryStageHasALayer | internal/manager/distributed.go:668-671 | every stage has a layer if and only if there are no more stages than layers |
| Split.StageCanBeEmpty | internal/manager/distributed.go:668-671 | three workers and two layers: the first stage gets none |
| Split.SharesAreFair | internal/manager/distributed.go:662-667 | where no clamp fires a stage is within half a layer of its exact share, and the last within half a layer per other stage |
| Split.SharesCoverModel | internal/manager/distributed.go:814-819 | with no more stages than layers, the byte shares add up to at least the model and to less than the model plus one byte per stage |
| Fit.PlanFitsExactlyWhen | internal/manager/distributed.go:646-699 | every stage fits its worker, in memory and disk, if and only if each worker has room in exact proportion for the layers computed from the weights |
| Fit.SplitIsUnique | internal/manager/distributed.go:660-676 | the layers of every stage are determined by the workers' weights and the layer count |
| Fit.ShareFits | internal/manager/distributed.go:814-819 | the rounded-up byte share fits if and only if the exact share does |
| Fit.StageIsNearlyFair | internal/manager/distributed.go:662-672 | with no more stages than layers, clamped or not, a stage of more than one layer exceeds its exact share by at most half a layer, the last by half a layer per other stage |
| Fit.StageNearlyFits | internal/manager/distributed.go:646-699 | with no more stages than layers, and workers that hold the model together, a one-layer stage asks for one layer's bytes and any other exceeds its worker's net memory by at most the bytes of its half layers, rounded up |
| Fit.PlanCanOvercommit | internal/manager/distributed.go:646-699 | a plan whose first stage does not fit its worker although the workers hold the model together |
| Fit.LastStageCanOvercommit | internal/manager/distributed.go:662-672 | one whose last stage absorbs the rounding of the others and misses by almost a layer |
| Fit.DiskCanOvercommit | internal/manager/distributed.go:646-699 | one that misses on disk, which the split does not look at |
| Handoff.ShardManifest | internal/manager/cdip.go:32-77 | one shard per stage, with the stage's node and layers |
| Handoff.StageJobRequests | internal/manager/distributed.go:828-891 | requests are made for exactly the plans that pass every check, one per stage, in order: pinned, one attempt, left to the coordinator, with the workers before and after as links |
| Handoff.AcceptsMeans | internal/manager/distributed.go:828-853 | the plans accepted are exactly those with a named parent and model and two or more stages on named workers, numbered from 0, whose shards say the same |
| Handoff.PrepareMessageMeans | internal/manager/distributed.go:130-160 | a message can be made exactly for a stage input of this parent with named model and worker and at least one layer, and says what the input says |
| Handoff.RunStageJobMeans | internal/runtimes/distributed_stage.go:98-147 | the worker takes exactly the stage inputs that are named, consistent, of logical layers and not empty, and answers with their layers and links |
| Delivery.PlanManifestCovers | internal/cdip/types.go:189-237 | the manifest of a plan is one the validator accepts if and only if there are no more stages than layers |
| Delivery.PlanIsAccepted | internal/manager/distributed.go:828-891 | any plan of two or more named workers gets its stage job requests, whatever its layers |
| Handoff.BatchStoresStageJobs | internal/manager/state.go:313-359 | the batch stores every stage job pinned to its worker and queued, whatever the workers' state |
| Handoff.OrderIsRestored | internal/manager/distributed.go:489-504 | listing the stage jobs gives plan order, whatever order the store returns them in |
| Handoff.OrderStaysRestored | internal/manager/distributed.go:489-504 | that stays so over any run that gives the parent no further stages |
| Handoff.PrepareMessages | internal/manager/distributed.go:120-165 | messages are made for all stages or none: exactly when every stage's input makes a valid one |
| Delivery.PlanSurvivesHandoff | internal/manager/distributed.go:120-165 | end to end: the created stage jobs list in plan order and are pinned; exactly those with a layer get their prepare message and are accepted, the worker answering with the layers and links the plan gave it |
| Delivery.PlanIsPreparedExactlyWhen | internal/manager/distributed.go:120-165 | every prepare message of a plan can be made if and only if there are no more stages than layers |
| Delivery.StageJobIsAccepted | internal/runtimes/distributed_stage.go:98-147 | the stage runtime accepts the stage job a plan makes if and only if it holds a layer, and answers with that stage's layers |
| ShardPlan.UsableWorkers | internal/manager/models.go:315-329 | the idle workers with memory and effective storage to give, storage cut to what is free |
| ShardPlan.SelectShardWorkers | internal/manager/models.go:340-349 | stops with enough exactly when some prefix of two or more workers holds the model |
| ShardPlan.RemainingIsShortfall | internal/manager/models.go:371-403 | what is left to place after filling workers is exactly the shortfall of their total |
| ShardPlan.BuildShards | internal/manager/models.go:371-403 | the shards' memory and disk sum exactly to the model's needs, each but the last within its worker |
| ShardPlan.LastShardFits | internal/manager/models.go:371-403 | the last worker's remainder fits it too, when the workers hold the model together |
| ShardPlan.PlacementPlan | internal/manager/models.go:292-362 | single-worker exactly when some worker is capable; otherwise sharded exactly when some set of two or more workers can hold the model with what each can offer now, taken in order of memory, storage and name, with shards that conserve it and fit |
| Relay.MemoryTransport.Open | internal/transport/transport.go:242-275 | a named stream is created on first use, and no queue changes |
| Relay.MemoryTransport.Send | internal/transport/transport.go:282-292 | an invalid frame is refused, a valid one appended when there is room; on a full stream the sender waits with nothing changed |
| Relay.MemoryTransport.Receive | internal/transport/transport.go:305-315 | the oldest frame comes out, and it is a valid one; on an empty stream the reader waits with nothing changed |
| Relay.DecodeStage | internal/runtimes/distributed_stage.go:153-201 | rejects a command without names or payload, sends nothing without a transport or a downstream worker, and otherwise sends its frame, defaults filled in, when there is room |
| Relay.RelayHop | internal/manager/distributed.go:331-372 | one hop waits with nothing changed exactly when its stream is full; otherwise it sends this step's frame, returns the oldest of the stream, and succeeds exactly when their checksums agree |
| Relay.RelayFrames | internal/manager/distributed.go:295-380 | an attempt serves the streams in order up to the first mismatch or full stream, and returns the frames it read; when it relays among frames of this pipeline, all of this step |
| Relay.StepsHaveDifferentChecksums | internal/manager/distributed.go:352 | the frames of two steps at one hop have different checksums |
| Relay.RelayedMeansThisStep | internal/manager/distributed.go:331-372 | when only frames of this pipeline are queued, of whatever steps, an attempt that relays returns frames of this step alone |
| Relay.OtherStepMismatches | internal/manager/distributed.go:331-372 | a frame of another step at the head of a stream that is reached and has room makes the attempt fail right there |
| Relay.OwnFramesStay | internal/manager/distributed.go:295-380 | an attempt leaves only frames of the pipeline behind, so both hold of the next attempt too |
| Relay.FrameDefaults | internal/runtimes/distributed_stage.go:160-190 | a frame says what its command says, and a mock encoding of unsigned bytes in one row where the command says nothing visible |
| Relay.BlocksExactlyWhen | internal/manager/distributed.go:295-380 | an attempt waits if and only if it reaches a full stream with room and matching frames on every stream before it |
| Relay.AttemptHeals | internal/manager/distributed.go:295-380 | an attempt keeps every queue length, one that mismatches removes exactly one stale frame, and any other removes none |
| Relay.FailuresAreBounded | internal/manager/distributed.go:295-380 | repeated attempts of one step fail at most as often as there were stale frames |
| Relay.EmptyStreamsRelay | internal/manager/distributed.go:295-380 | on empty streams the attempt succeeds, and every frame that comes back is the one sent |
| Matrix.MultiplySquare | cmd/cmesh/main.go:2237-2248 | in place, every cell gains its dot product, added from the left, for any addition and multiplication |
| Matrix.ColumnStep | cmd/cmesh/main.go:2237-2248 | one product added in place moves the whole state of the three loops one column on |
| Matrix.ZeroStartGivesProduct | cmd/cmesh/main.go:2186-2201 | starting from a cleared matrix the result is the naive product with the same order of operations |
| Matrix.ProductMeans | cmd/cmesh/main.go:2237-2248 | in row i and column j stands the sum, from the left, of the products of row i with column j |
| Matrix.RepeatMultiply | cmd/cmesh/main.go:2186-2201 | whatever the number of iterations, the result is the product of rows and columns |
| Conversations.TrimMessages | internal/manager/conversations.go:86-99 | exactly the newest 40 messages that show, or all of them if there are fewer, in order, each with its content trimmed and a known role |
| Conversations.NormalizeMeans | internal/manager/conversations.go:70-84 | a stored message has its content trimmed and is of the system or the assistant exactly when its role reads so, white space and case aside; of the user otherwise |
| Conversations.WindowMeans | internal/manager/conversations.go:86-99 | the window stands at increasing positions of the history: exactly the last 40 that show |
| Conversations.NewestIsLast | internal/manager/conversations.go:86-99 | after a message that shows is appended, it is the last one stored |
| Conversations.WindowIsIncremental | internal/manager/conversations.go:86-99 | trimming after each append is trimming the whole history |
| Conversations.Store.AppendMessage | internal/manager/state.go:574-605 | after any appends the stored messages are the window of everything ever appended, the new message last if it shows; the conversation takes the given model, worker and prompt, and no other one changes |
| Conversations.Store.AppendAnswer | internal/manager/state.go:771-804 | the same for a worker's answer, stored exactly when the job generates text in a conversation and answered something |
| Conversations.Store.Delete | internal/manager/state.go:564-572 | forgets exactly that conversation |
| Prompt.ReverseInPlace | internal/manager/conversations.go:137-139 | the array ends as its own mirror image |
| Prompt.ContextPreview | internal/manager/conversations.go:105-144 | the included messages, their exact token sum, and included plus dropped is the total; the newest message that shows, or a visible end of it, comes last |
| Prompt.PreviewEndsWithNewest | internal/manager/conversations.go:105-144 | if any message given shows, the prompt ends with the newest that does, or with a visible end of it; if none does it is empty |
| Prompt.TokensAreQuarters | internal/manager/conversations.go:174-185 | a text costs a token for every four characters begun, white space around it aside |
| Prompt.BudgetFillsContext | internal/manager/conversations.go:151-168 | budget, answer, system prompt and 128 tokens add up to a context of at most 4096, unless that leaves less than 256 |
| Prompt.SelectedInOrder | internal/manager/conversations.go:105-144 | included messages keep their order, end with the newest, and no dropped one would still fit |
| Prompt.SelectionIsMaximal | internal/manager/conversations.go:119-131 | no message left out would still fit |
| Prompt.TruncationKeepsSuffix | internal/manager/conversations.go:187-200 | a cut message is a visible suffix of at most the budget |
| Prompt.SelectionFitsBudget | internal/manager/conversations.go:105-144 | the total is at most the budget and seven tokens, and within the budget when the newest message fits uncut |
| Prompt.BudgetIsMetExactlyWhen | internal/manager/conversations.go:119-131 | the total is within the budget if and only if the newest message, cut if need be, is |
| Prompt.CutFitsExactlyWhen | internal/manager/conversations.go:187-200 | that is so if and only if the message fits uncut, or what the cut leaves of its content is short enough for its role and fixed cost |
| Prompt.CutCanExceedBudget | internal/manager/conversations.go:187-200 | a message of 1025 letters that still exceeds the smallest budget after the cut |
| Prompt.PreviewIsBest | internal/manager/conversations.go:105-200 | all of it together, for the window of any conversation |
| RpcPool.CleanEndpoints | internal/manager/server.go:981-993 | the distinct visible endpoints, trimmed, in order of first appearance |
| RpcPool.CleanKeepsClean | internal/protocol/distributed_rpc.go:149-161 | cleaning a clean list changes nothing |
| RpcPool.RankingOrderIsStrict | internal/manager/server.go:894-920 | the comparison is a strict total order on endpoints for any health records |
| RpcPool.RankingSorts | internal/manager/server.go:888-922 | a ranking is a sorted rearrangement |
| RpcPool.RankingIsUnique | internal/manager/server.go:888-922 | there is one sorted list per set of endpoints, so the sorting algorithm does not matter |
| RpcPool.RankingIgnoresOrder | internal/manager/server.go:888-922 | the ranking depends only on which endpoints are offered |
| RpcPool.UsableEndpoints | internal/manager/server.go:924-939 | exactly the endpoints named that are not quarantined, or all if they are asked for; ready ones before unknown ones before failed ones, and within these by failures in a row, failures, latency and name |
| RpcPool.BeforeMeans | internal/manager/server.go:888-979 | one endpoint ranks before another if and only if its health record is the better one |
| RpcPool.LastRecordCounts | internal/manager/server.go:941-950 | the record that counts is the last one that names the endpoint, white space aside |
| RpcPool.PoolReport | internal/manager/server.go:839-886 | exactly the entries of ready runtimes on online workers, and the distinct endpoints of the ready ones |
| RpcPlan.Schedule | internal/manager/server.go:1821-1850 | the best ranked endpoints that are not excluded, at most eight, and none is left out that ranks before one kept |
| RpcPlan.BuildPlan | internal/manager/server.go:1705-1819 | executable exactly when the coordinator has the model and can generate with it, and some endpoint is kept; the endpoints are the best eligible ones |
| RpcPlan.PlanPrefersHealthy | internal/manager/server.go:1821-1850 | an endpoint that is down is in the plan only if every eligible one that is not down is, and one that is not up only if every eligible one that is up is |
| RpcPlan.EligibleMeans | internal/manager/server.go:1705-1850 | eligible is what a ready entry serves, is not quarantined, answered if it was probed, and is owned by neither the coordinator nor a busy worker |
| RpcPlan.OwnerMeans | internal/manager/server.go:1893-1905 | the owner of an endpoint is the first entry that names it |
| RpcPlan.CoordinatorMeans | internal/manager/server.go:1783-1791 | the coordinator is the worker asked for, trimmed, or else the first that can generate |
| RpcPlan.ForJob | internal/manager/server.go:1852-1882 | the backends kept are exactly those of scheduled endpoints |
| RpcPlan.ValidatePlan | internal/protocol/distributed_rpc.go:56-107 | accepts exactly the plans of this protocol version that name everything, match the model and coordinator asked for, and whose backends sit on named workers at endpoints the plan names |
| RpcPlan.AcceptsMeans | internal/protocol/distributed_rpc.go:56-107 | the checks hold if and only if the plan says who, what and where, in terms of its fields alone |
| RpcPlan.ExecutablePlanIsAccepted | internal/manager/server.go:1705-1905 | an executable plan is accepted if and only if the model, the coordinator and the scheduled workers have visible names |
| RpcPlan.JoinedWorkersAccept | internal/manager/state.go:1062-1068 | with identifiers minted by the manager and a named model that is always so: every executable plan is accepted |
| RpcPlan.PlanKeepsBest | internal/manager/server.go:1821-1850 | an endpoint is in the plan if and only if it is eligible and fewer than eight eligible ones rank before it |
| RpcPlan.PlanAvoidsTakenWorkers | internal/manager/server.go:1821-1850 | the backends avoid the coordinator and busy workers if and only if no ready entry of such a worker has an endpoint that is kept |
| RpcPlan.OneOwnerIsEnough | internal/manager/server.go:1893-1905 | when no endpoint is announced by two workers, that condition holds |
| RpcPlan.OwnerIsFirstByName | internal/manager/server.go:878-883 | in the pool's order the owner of an endpoint is an entry that announces it with the least worker name |
| RpcPlan.CoordinatorCanBeBackend | internal/manager/server.go:1893-1905 | an executable plan whose own coordinator is among its backends |
| RpcPlan.ValidateResult | internal/protocol/distributed_rpc.go:109-147 | accepts exactly the results of this protocol version that name everything, match the plan and its model, and name no endpoint that the plan does not |
| RpcPlan.ReportIsAccepted | cmd/cmesh/main.go:1604-1623 | the worker's report on an accepted plan is accepted if and only if the output is not blank |
| Runner.ActiveCountsPolls | cmd/cmesh/main.go:703-738 | in every interleaving the counter is the number of polls in flight and stays within the slots |
| Runner.FirstErrorIsKept | cmd/cmesh/main.go:730-738 | the error kept is the first of the run |
| Runner.ErrorStopsPolling | cmd/cmesh/main.go:703-722 | after an error no poll is ever started |
| Runner.WorkerJobRunner.PollAvailable | cmd/cmesh/main.go:703-722 | reserves every free slot, or returns the kept error and reserves none |
| Runner.WorkerJobRunner.PollEnded | cmd/cmesh/main.go:730-738 | frees one slot and keeps the first error |

## Left out

- HTTP handlers, authentication, cookies, templates, command-line parsing and the desktop shell: plumbing.
- PostgresStore and FileStore: scheduler properties are proved for the in-memory `State` only; two of its operations change state without saving it, so "disk equals memory" is no invariant.
- HTTPActivationTransport, writer close and context cancellation: network and shutdown.
- Model download, repair and deletion, runtime discovery, process control, benchmarks: file system and foreign processes. Benchmark results enter as the workers' total scores.
- Memory extraction, prompt templates, output sanitising: string handling with weak specifications.
- The consensus, agent, storage and scheduler packages under `internal/`: stubs.
- Latency estimates, runtime diagnostics, warnings and the wording of errors and blockers: they decide nothing that is modelled.
- The cleanup that a finished model deletion does to conversations and memories: its summary text enters `CompleteJob` as a parameter.
- The matrix benchmark's random fill and checksum: only the multiply loop is modelled.
- ManagerState.State.CompleteJob: does not store the chat answer of a finished generation in the same object; `Conversations.Store.AppendAnswer` models that part on its own.
- Conversations.Store.AppendMessage: does not model the memories extracted from a message.
- Conversations.Store.AppendAnswer: decoding the job's input and result is a parameter, an undecodable one being empty.
- RpcPool.PoolReport: leaves the entries in the order of the nodes; the planner is proved for every order of the pool, and `RpcPlan.OwnerIsFirstByName` says what the order by name decides.
- History.RunWithinSlots: excludes runs that start a stage on a full worker, where the bound is false; `Runs.StepKeeps` says that this is the only exception.
- Runs.ListingDrains: excludes stages that were already active on a worker not stored as online; `Runs.StepStrays` says how a stage gets there.
- Runs.StepConservesWork: for a batch the condition on its requests is sufficient only; the exact one, in `Runs.BatchConservesWorkExactlyWhen`, is about the outcome, because which bypassing jobs a worker could still take depends on ties the batch resolves.
- Barrier.BarrierHolds: excludes the operator's endpoint that pushes a single stage to prefill, decode or complete by hand (`internal/manager/server.go:2351-2385`), which skips the barrier by design, and assumes no stage jobs are added to a running parent.
- Barrier.NextKeepsInv: a prepare, prefill or decode action may give up after its snapshot at any time; which messages fail to validate and when a relay fails are left open, so the barrier holds for every outcome.
- Progress.LoneCoordinatorAdvances: for the same reason, giving up is a possible outcome of its snapshot.
- Relay.MemoryTransport.Send: what a waiting sender does later is not modelled; it may go on when a reader makes room, such as the activation endpoint (`internal/manager/server.go:2503-2530`), or fail when its context ends. The same for an attempt that waits.
- Relay.MemoryTransport.Receive: the same for a waiting reader, and for a stream that was closed.
- Relay.FailuresAreBounded: for one step number and one coordinator at a time on the streams.
- Selection.PlanWorkers: the runtime readiness fields of a plan stage and the estimated layer count's table are inputs.
- Delivery.StageJobIsAccepted: assumes the worker has the model and a ready runtime; the prompt fields of a stage input are not modelled, and JSON is the identity.
- RpcPlan.BuildPlan: leaves out latencies, error texts, summary counters and warnings.
- Runner.WorkerJobRunner.PollAvailable: what a poll does is left open; only its start, its end and its error are modelled.
