/** What the manager's operations promise, in terms of the fields of workers, requests and jobs alone. */
module Promises {
  import opened Text
  import opened Jobs
  import opened Scheduler
  import opened Lifecycle
  import opened LoopFacts
  import opened StepFacts
  import opened Runs
  import Cdip

  // ----- workers -----

  /** The worker allows as much of everything as is asked for; free storage counts where it is reported. */
  predicate HasEnough(res: Resources, req: Requirements) {
    && (req.cpuCores > 0 ==> res.coresAllowed >= req.cpuCores)
    && res.memoryAllowed >= req.memoryBytes
    && res.storageAllowed >= req.diskBytes
    && (res.storageFree > 0 ==> res.storageFree >= req.diskBytes)
    && (req.gpuRequired || req.vramBytes > 0 ==>
          exists i :: 0 <= i < |res.gpus|
            && res.gpus[i].computeCompatible && res.gpus[i].allowedVramBytes >= req.vramBytes)
  }

  /** A worker stored as online whose last heartbeat is at most 30 seconds old. */
  predicate IsLive(node: Node, now: int) {
    node.role == Worker && node.status == Online && now - node.updatedAt <= 30_000_000_000
  }

  /** The worker's scheduled and running jobs. */
  function ActiveJobsOf(s: Store, w: string): set<string> {
    set id | id in s.jobs && s.jobs[id].assignedTo == w && s.jobs[id].status in {Scheduled, Running}
  }

  /** The slots a worker reports when that is a positive number, and one otherwise. */
  predicate HasFreeSlot(s: Store, w: string)
    requires w in s.nodes
  {
    var reported := s.nodes[w].resources.jobSlots;
    if reported > 0 then |ActiveJobsOf(s, w)| < reported else |ActiveJobsOf(s, w)| == 0
  }

  /** A live worker with a free slot that has enough for the request. */
  predicate CanTake(s: Store, w: string, req: Requirements, now: int) {
    w in s.nodes && IsLive(s.nodes[w], now) && HasEnough(s.nodes[w].resources, req) && HasFreeSlot(s, w)
  }

  function ScoreOf(s: Store, w: string): real {
    if w in s.scores then s.scores[w] else 0.0
  }

  /** A best-scoring worker that can take the job, or none exactly when there is none. */
  ghost predicate IsBestWorker(s: Store, req: Requirements, excluded: set<string>, now: int, w: string) {
    if w == "" then
      forall v :: v !in excluded ==> !CanTake(s, v, req, now)
    else
      && w !in excluded && CanTake(s, w, req, now)
      && forall v :: v !in excluded && CanTake(s, v, req, now) ==> ScoreOf(s, v) <= ScoreOf(s, w)
  }

  lemma ServesMeans(node: Node, req: Requirements, now: int)
    ensures Serves(node, req, now) <==> IsLive(node, now) && HasEnough(node.resources, req)
  {
    assert forall i :: 0 <= i < |node.resources.gpus| ==>
      (GpuServes(node.resources.gpus[i], req)
       <==> node.resources.gpus[i].computeCompatible && node.resources.gpus[i].allowedVramBytes >= req.vramBytes);
  }

  lemma EligibleMeans(s: Store, w: string, req: Requirements, now: int)
    ensures Eligible(s, w, req, now) <==> CanTake(s, w, req, now)
  {
    hide Serves, HasEnough;
    if w in s.nodes {
      ServesMeans(s.nodes[w], req, now);
    }
    assert ActiveSet(s.jobs, w) == ActiveJobsOf(s, w);
  }

  /** The manager's choice of a worker is the best one that can take the job. */
  lemma PickMeans(s: Store, req: Requirements, excluded: set<string>, now: int, w: string)
    ensures IsPick(s, req, excluded, now, w) <==> IsBestWorker(s, req, excluded, now, w)
  {
    hide Eligible, CanTake;
    forall v ensures Eligible(s, v, req, now) <==> CanTake(s, v, req, now) {
      EligibleMeans(s, v, req, now);
    }
  }

  /** The job is scheduled and was not, or not on this worker. */
  predicate NewlyScheduled(s: Store, s': Store, id: string) {
    && id in s'.jobs && s'.jobs[id].status == Scheduled
    && (id in s.jobs ==> s.jobs[id] != s'.jobs[id] && !s.jobs[id].ActiveOn(s'.jobs[id].assignedTo))
  }

  /** Its worker is live and has enough for it. */
  predicate SitsWell(s: Store, id: string, now: int)
    requires id in s.jobs
  {
    var j := s.jobs[id];
    && j.assignedTo in s.nodes
    && IsLive(s.nodes[j.assignedTo], now) && HasEnough(s.nodes[j.assignedTo].resources, j.requirements)
  }

  lemma ServedSitsWell(s: Store, id: string, now: int)
    requires id in s.jobs
    ensures ServedBy(s, s.jobs[id].assignedTo, s.jobs[id].requirements, now) <==> SitsWell(s, id, now)
  {
    hide Serves, HasEnough;
    if s.jobs[id].assignedTo in s.nodes {
      ServesMeans(s.nodes[s.jobs[id].assignedTo], s.jobs[id].requirements, now);
    }
  }

  lemma QueueSeatsWell(s: Store, now: int, s': Store, id: string)
    requires QueueEffect(s, now, s') && id in s.jobs && s'.jobs[id] != s.jobs[id] && s'.jobs[id].IsActive()
    ensures SitsWell(s', id, now)
  {
    hide Load, Serves, SitsWell;
    assert QueueTouch(s.jobs[id], s'.jobs[id]);
    ServedSitsWell(s', id, now);
  }

  /** Every worker that a job is newly scheduled on, by any operation but a stage move, is live and has enough. */
  lemma ScheduledWhereItFits(s: Store, op: Op, now: int, s': Store, id: string)
    requires Valid(s) && Step(s, op, now, s') && !op.MoveStage? && NewlyScheduled(s, s', id)
    ensures SitsWell(s', id, now)
  {
    hide Valid, SitsWell, SchedulesQueue, Completes, Cancels, ListsNodes, FailsActiveJobs, Creates, CreatesBatch;
    match op
    case Register(node) => RegisterSeatsWell(s, node, now, s', id);
    case Heartbeat(w, res) =>
      if w in s.nodes {
        RefreshSeatsWell(s, w, res, now, s', id);
      }
    case MarkOffline(w) =>
      if w in s.nodes {
        OfflineSeatsWell(s, w, now, s', id);
      }
    case Nodes => ListingSeatsWell(s, now, s', id);
    case Create(k, req) => CreateSeatsWell(s, k, req, now, s', id);
    case CreateBatch(ids, reqs) => BatchSeatsWell(s, ids, reqs, now, s', id);
    case Complete(k, rep) => CompleteSeatsWell(s, k, rep, now, s', id);
    case Cancel(k) => CancelSeatsWell(s, k, now, s', id);
    case _ =>
  }

  lemma RegisterSeatsWell(s: Store, node: Node, now: int, s': Store, id: string)
    requires Valid(s) && node.id != "" && SchedulesQueue(s.(nodes := s.nodes[node.id := node]), now, s')
    requires NewlyScheduled(s, s', id)
    ensures SitsWell(s', id, now)
  {
    hide Load, SchedulesQueue, SitsWell, AllSound, OnlinePlaced;
    QueueConservesWork(s.(nodes := s.nodes[node.id := node]), now, s');
    QueueSeatsWell(s.(nodes := s.nodes[node.id := node]), now, s', id);
  }

  lemma RefreshSeatsWell(s: Store, w: string, res: Resources, now: int, s': Store, id: string)
    requires Valid(s) && w in s.nodes && SchedulesQueue(Refreshed(s, w, res, now), now, s')
    requires NewlyScheduled(s, s', id)
    ensures SitsWell(s', id, now)
  {
    hide Load, SchedulesQueue, SitsWell, AllSound, OnlinePlaced;
    QueueConservesWork(Refreshed(s, w, res, now), now, s');
    QueueSeatsWell(Refreshed(s, w, res, now), now, s', id);
  }

  lemma OfflineSeatsWell(s: Store, w: string, now: int, s': Store, id: string)
    requires Valid(s) && w in s.nodes && FailsActiveJobs(TakenOffline(s, w, now), w, now, WENT_OFFLINE, s')
    requires NewlyScheduled(s, s', id)
    ensures SitsWell(s', id, now)
  {
    hide Load, Valid, SitsWell, FailsActiveJobs, Serves;
    LosingKeeps(s, w, now, WENT_OFFLINE, s');
    assert FailTouch(s.jobs[id], s'.jobs[id], w);
    ServedSitsWell(s', id, now);
  }

  lemma ListingSeatsWell(s: Store, now: int, s': Store, id: string)
    requires Valid(s) && ListsNodes(s, now, s') && NewlyScheduled(s, s', id)
    ensures SitsWell(s', id, now)
  {
    hide Load, Valid, SitsWell, ListsNodes, WithinSlots;
    ListsNodesKeeps(s, now, s');
    var j' := s'.jobs[id];
    assert TimeoutTouch(s, s.jobs[id], j', now);
    assert KeptOrDropped(s.nodes[j'.assignedTo], s'.nodes[j'.assignedTo], now);
    SameRequirements(s.jobs[id], j');
    ServedSitsWell(s', id, now);
  }

  lemma SameRequirements(j: Job, j': Job)
    requires Moves(j, j')
    ensures j'.requirements == j.requirements
  {
    MovesSound(j, j');
  }

  lemma CreateSeatsWell(s: Store, k: string, req: CreateRequest, now: int, s': Store, id: string)
    requires Creates(s, k, req, now, s') && NewlyScheduled(s, s', id)
    ensures SitsWell(s', id, now)
  {
    hide Load, SitsWell, Serves;
    var job :| Places(s, k, req, now, job) && s' == SetJob(s, k, job);
    ServedSitsWell(s', id, now);
  }

  lemma {:induction false} BatchSeatsWell(
      s: Store, ids: seq<string>, reqs: seq<CreateRequest>, now: int, s': Store, id: string)
    requires |ids| == |reqs| && Valid(s) && CreatesBatch(s, ids, reqs, now, s') && NewlyScheduled(s, s', id)
    requires forall i :: 0 <= i < |ids| ==> ids[i] != "" && ids[i] !in s.jobs
    requires forall i, j :: 0 <= i < j < |ids| ==> ids[i] != ids[j]
    ensures SitsWell(s', id, now)
    decreases |ids|
  {
    hide SitsWell, Creates, Valid, WithinSlots, JobsMove;
    var m: Store :| CreatesBatch(s, Init(ids), Init(reqs), now, m) && Creates(m, Last(ids), Last(reqs), now, s');
    CreatesBatchKeeps(s, Init(ids), Init(reqs), now, m);
    assert Last(ids) !in m.jobs;
    if id == Last(ids) {
      CreateSeatsWell(m, Last(ids), Last(reqs), now, s', id);
    } else {
      OneMoreJob(m, Last(ids), Last(reqs), now, s', id);
      BatchSeatsWell(s, Init(ids), Init(reqs), now, m, id);
      StillSitsWell(m, s', id, now);
    }
  }

  lemma OneMoreJob(s: Store, k: string, req: CreateRequest, now: int, s': Store, id: string)
    requires Creates(s, k, req, now, s') && id in s'.jobs && s'.jobs[id].status == Scheduled
    ensures s'.nodes == s.nodes
    ensures id != k ==> id in s.jobs && s'.jobs[id] == s.jobs[id]
  {
    hide IsPick, Eligible;
  }

  lemma StillSitsWell(s: Store, s': Store, id: string, now: int)
    requires s'.nodes == s.nodes && id in s.jobs && id in s'.jobs && s'.jobs[id] == s.jobs[id] && SitsWell(s, id, now)
    ensures SitsWell(s', id, now)
  {
  }

  lemma CompleteSeatsWell(s: Store, k: string, rep: Report, now: int, s': Store, id: string)
    requires Valid(s) && Completes(s, k, rep, now, s') && NewlyScheduled(s, s', id)
    ensures SitsWell(s', id, now)
  {
    hide Load, SchedulesQueue, SitsWell, ReportMakes, OnlinePlaced, Serves;
    var out :| ReportMakes(s, k, rep, now, out) && SchedulesQueue(SetJob(s, k, out), now, s');
    var mid := SetJob(s, k, out);
    ReportSeatsWell(s, k, rep, now, out);
    QueueConservesWork(mid, now, s');
    if s'.jobs[id] != mid.jobs[id] {
      QueueSeatsWell(mid, now, s', id);
    } else {
      ServedSitsWell(s', id, now);
    }
  }

  lemma ReportSeatsWell(s: Store, k: string, rep: Report, now: int, out: Job)
    requires WellKeyed(s) && AllSound(s) && AcceptsReport(s, k, rep) && ReportMakes(s, k, rep, now, out)
    ensures out.id == k && out.requirements == s.jobs[k].requirements
    ensures out.IsActive() ==> ServedBy(s, out.assignedTo, out.requirements, now)
  {
    hide Load, Serves;
    if rep.error != "" {
      ReschedulesEffect(s, Reported(s.jobs[k], rep, now), rep.nodeId, now, rep.error, out);
    }
  }

  lemma CancelSeatsWell(s: Store, k: string, now: int, s': Store, id: string)
    requires Valid(s) && Cancels(s, k, now, s') && NewlyScheduled(s, s', id)
    ensures SitsWell(s', id, now)
  {
    hide Load, SchedulesQueue, SitsWell, AllSound, OnlinePlaced;
    var mid := SetJob(s, k, CanceledByOperator(s.jobs[k], now));
    QueueConservesWork(mid, now, s');
    QueueSeatsWell(mid, now, s', id);
  }

  /** The other way round: while a job waits after the queue was offered, no live worker with a free slot has enough
      for it. */
  lemma WaitsOnlyWhenNobodyCan(s: Store, id: string, now: int)
    requires WorkConserved(s, now) && id in s.jobs && s.jobs[id].status == Queued && s.jobs[id].assignedTo == ""
    ensures forall w :: !CanTake(s, w, s.jobs[id].requirements, now)
  {
    hide Eligible, CanTake;
    assert Stuck(s, id, now);
    forall w ensures !CanTake(s, w, s.jobs[id].requirements, now) {
      EligibleMeans(s, w, s.jobs[id].requirements, now);
    }
  }

  // ----- stages -----

  /** The stage has neither completed, failed nor been aborted. */
  predicate IsUnderWay(state: Cdip.StageState) {
    state in {Cdip.Unset, Cdip.Planned, Cdip.Preparing, Cdip.Ready, Cdip.Prefill, Cdip.Decode}
  }

  predicate IsOnePhaseOn(from: Cdip.StageState, to: Cdip.StageState) {
    || ((from == Cdip.Unset || from == Cdip.Planned) && to == Cdip.Preparing)
    || (from == Cdip.Preparing && to == Cdip.Ready)
    || (from == Cdip.Ready && to == Cdip.Prefill)
    || (from == Cdip.Prefill && to == Cdip.Decode)
    || (from == Cdip.Decode && to == Cdip.Completed)
  }

  predicate IsSamePhase(from: Cdip.StageState, to: Cdip.StageState) {
    if from == Cdip.Unset then to == Cdip.Planned else to == from
  }

  /** What a stage may be moved to: where it is, one phase on, and, while it is under way, failed or aborted. */
  predicate MayBecome(from: Cdip.StageState, to: Cdip.StageState) {
    IsSamePhase(from, to) || IsOnePhaseOn(from, to) || (IsUnderWay(from) && (to == Cdip.Failed || to == Cdip.Aborted))
  }

  /** How a stage job's status goes with a move, and what it records. */
  predicate RecordsMove(j: Job, j': Job, next: Cdip.StageState, detail: string, now: int) {
    && j'.cdipState == next && j'.updatedAt == now && j'.result == StageNote(next, TrimSpace(detail), now)
    && j'.assignedTo == j.assignedTo
    && (next == Cdip.Failed ==>
          j'.status == Failed && j'.error == TrimSpace(detail) == j'.lastFailure && j'.finishedAt == now)
    && (next == Cdip.Aborted ==> j'.status == Canceled && j'.error == TrimSpace(detail) && j'.finishedAt == now)
    && (next == Cdip.Completed ==> j'.status == Succeeded && j'.error == j.error && j'.finishedAt == now)
    && (next !in {Cdip.Preparing, Cdip.Completed, Cdip.Failed, Cdip.Aborted} ==> j'.status == j.status)
    && (next == Cdip.Preparing ==>
          j'.status == if j.status == Queued && TrimSpace(j.assignedTo) != "" then Scheduled else j.status)
  }

  /** A stage move takes effect if and only if the stage may become that; otherwise nothing changes. */
  lemma StageMovesExactlyWhen(s: Store, id: string, next: Cdip.StageState, detail: string, now: int, s': Store)
    requires Valid(s) && Step(s, MoveStage(id, next, detail), now, s') && id in s.jobs && s.jobs[id].kind == JOB_STAGE
    ensures id in s'.jobs && s' == s.(jobs := s.jobs[id := s'.jobs[id]])
    ensures MayBecome(s.jobs[id].cdipState, next) ==> RecordsMove(s.jobs[id], s'.jobs[id], next, detail, now)
    ensures !MayBecome(s.jobs[id].cdipState, next) ==> s' == s
  {
    hide Load, Valid;
  }

  lemma MayBecomeMeans(from: Cdip.StageState, to: Cdip.StageState)
    ensures MayBecome(from, to) <==> Cdip.CanTransition(Cdip.Current(from), to)
  {
  }

  /** From every valid state a stage that is under way can be failed and aborted in one move. */
  lemma StageCanEnd(s: Store, id: string, next: Cdip.StageState, detail: string, now: int) returns (s': Store)
    requires Valid(s) && id in s.jobs && s.jobs[id].kind == JOB_STAGE && IsUnderWay(s.jobs[id].cdipState)
    requires next == Cdip.Failed || next == Cdip.Aborted
    ensures Step(s, MoveStage(id, next, detail), now, s') && id in s'.jobs && s'.jobs[id].cdipState == next
    ensures s'.jobs[id].status == (if next == Cdip.Failed then Failed else Canceled)
    ensures s'.jobs[id].error == TrimSpace(detail) && s'.jobs[id].finishedAt == now
  {
    hide Load, Valid;
    s' := SetJob(s, id, StageMoved(s.jobs[id], next, detail, now));
  }

  // ----- reports -----

  /** An accepted report without an error ends the job with exactly the reported result, or the summary of a model
      deletion. */
  lemma SuccessIsRecorded(s: Store, id: string, rep: Report, now: int, s': Store)
    requires Valid(s) && Step(s, Complete(id, rep), now, s')
    requires id in s.jobs && s.jobs[id].assignedTo == rep.nodeId && s.jobs[id].status == Running && rep.error == ""
    ensures id in s'.jobs && s'.jobs[id].status == Succeeded && s'.jobs[id].error == "" && s'.jobs[id].finishedAt == now
    ensures s'.jobs[id].result == RawResult(if s.jobs[id].kind == "model.delete" then rep.summary else rep.result)
  {
    hide Load, SchedulesQueue, Sound, OnlinePlaced, Eligible;
    var out :| ReportMakes(s, id, rep, now, out) && SchedulesQueue(SetJob(s, id, out), now, s');
    QueueConservesWork(SetJob(s, id, out), now, s');
    assert QueueTouch(out, s'.jobs[id]);
  }

  /** One with an error, when no attempt is left, fails the job with the reported error and result. */
  lemma FailureIsRecorded(s: Store, id: string, rep: Report, now: int, s': Store)
    requires Valid(s) && Step(s, Complete(id, rep), now, s')
    requires id in s.jobs && s.jobs[id].assignedTo == rep.nodeId && s.jobs[id].status == Running && rep.error != ""
    requires s.jobs[id].attempts >= s.jobs[id].maxAttempts
    ensures id in s'.jobs && s'.jobs[id].status == Failed && s'.jobs[id].finishedAt == now
    ensures s'.jobs[id].error == rep.error == s'.jobs[id].lastFailure && s'.jobs[id].result == RawResult(rep.result)
  {
    hide Load, SchedulesQueue, OnlinePlaced, Eligible;
    var out :| ReportMakes(s, id, rep, now, out) && SchedulesQueue(SetJob(s, id, out), now, s');
    assert Sound(s.jobs[id]);
    QueueConservesWork(SetJob(s, id, out), now, s');
    assert QueueTouch(out, s'.jobs[id]);
  }

  // ----- placing, dispatching and retrying -----

  /** Why a job waits: no live worker has enough for it, or those that have are full. */
  function WaitNote(s: Store, req: Requirements, now: int): string {
    if exists w :: w in s.nodes && IsLive(s.nodes[w], now) && HasEnough(s.nodes[w].resources, req)
    then "waiting for available worker capacity"
    else "waiting for capable worker"
  }

  predicate IsWaitNote(note: string) {
    note == "waiting for available worker capacity" || note == "waiting for capable worker"
  }

  lemma WaitNoteMeans(s: Store, req: Requirements, now: int)
    ensures WaitingReason(s, req, now) == WaitNote(s, req, now)
  {
    hide Serves, HasEnough, IsLive;
    forall w | w in s.nodes
      ensures Serves(s.nodes[w], req, now) <==> IsLive(s.nodes[w], now) && HasEnough(s.nodes[w].resources, req)
    {
      ServesMeans(s.nodes[w], req, now);
    }
  }

  /** The job as it was asked for, whoever has it and however far it got. */
  predicate IsSameRequest(j: Job, j': Job) {
    && j'.id == j.id && j'.kind == j.kind && j'.input == j.input && j'.requestedBy == j.requestedBy
    && j'.requirements == j.requirements && j'.createdAt == j.createdAt
    && j'.cdipState == j.cdipState && j'.cdipParent == j.cdipParent && j'.cdipIndex == j.cdipIndex
  }

  /** Nothing is left of an earlier attempt. */
  predicate StartsAfresh(j: Job, now: int) {
    j.error == "" && j.result == RawResult("") && j.startedAt == 0 && j.finishedAt == 0 && j.updatedAt == now
  }

  predicate IsDispatchedTo(j: Job, j': Job, w: string, now: int) {
    && IsSameRequest(j, j') && StartsAfresh(j', now)
    && j'.status == Scheduled && j'.assignedTo == w && j'.attempts == j.attempts + 1
    && j'.maxAttempts == j.maxAttempts && j'.lastFailure == if IsWaitNote(j.lastFailure) then "" else j.lastFailure
  }

  /** The job waits on; its note is refreshed unless it tells of a failure. */
  predicate KeepsWaiting(s: Store, j: Job, j': Job, now: int) {
    if j.lastFailure == "" || IsWaitNote(j.lastFailure)
    then j' == j.(lastFailure := WaitNote(s, j.requirements, now), updatedAt := now)
    else j' == j
  }

  /** What offering one waiting job to the workers does to it. */
  ghost predicate IsOffered(s: Store, j: Job, j': Job, now: int) {
    exists w :: IsBestWorker(s, j.requirements, {}, now, w)
      && if w == "" then KeepsWaiting(s, j, j', now) else IsDispatchedTo(j, j', w, now)
  }

  lemma OfferMeans(s: Store, id: string, now: int, s': Store)
    requires QueueVisit(s, id, now, s') && id in s.jobs && s.jobs[id].status == Queued && s.jobs[id].assignedTo == ""
    ensures id in s'.jobs && s' == s.(jobs := s.jobs[id := s'.jobs[id]])
    ensures IsOffered(s, s.jobs[id], s'.jobs[id], now)
  {
    hide IsPick, IsBestWorker, WaitingReason, WaitNote;
    var j := s.jobs[id];
    var w :| IsPick(s, j.requirements, {}, now, w)
      && s' == SetJob(s, id, if w == "" then LeftWaiting(j, WaitingReason(s, j.requirements, now), now)
                                        else DispatchedTo(j, w, now));
    PickMeans(s, j.requirements, {}, now, w);
    WaitNoteMeans(s, j.requirements, now);
  }

  /** What a pass of the queue does to one job: nothing, or, if it waits, dispatch it or refresh its note. */
  predicate IsOfferedOnce(j: Job, j': Job, now: int) {
    || j' == j
    || (j.status == Queued && j.assignedTo == "" && IsDispatchedTo(j, j', j'.assignedTo, now) && j'.assignedTo != "")
    || (j.status == Queued && j.assignedTo == "" && (j.lastFailure == "" || IsWaitNote(j.lastFailure))
        && IsWaitNote(j'.lastFailure) && j' == j.(lastFailure := j'.lastFailure, updatedAt := now))
  }

  lemma OfferedIsOnce(s: Store, j: Job, j': Job, now: int)
    requires j.status == Queued && j.assignedTo == "" && IsOffered(s, j, j', now)
    ensures IsOfferedOnce(j, j', now) && j'.id == j.id
  {
    hide IsBestWorker;
  }

  lemma UnofferedStays(s: Store, id: string, now: int, s': Store)
    requires QueueVisit(s, id, now, s') && !(id in s.jobs && s.jobs[id].status == Queued && s.jobs[id].assignedTo == "")
    ensures s' == s
    ensures id in s.jobs ==> IsOfferedOnce(s.jobs[id], s'.jobs[id], now)
  {
    hide IsPick;
  }

  lemma VisitOffersOnce(s: Store, id: string, now: int, s': Store)
    requires WellKeyed(s) && QueueVisit(s, id, now, s')
    ensures s'.jobs.Keys == s.jobs.Keys && WellKeyed(s')
    ensures forall k :: k in s.jobs && k != id ==> s'.jobs[k] == s.jobs[k]
    ensures id in s.jobs ==> IsOfferedOnce(s.jobs[id], s'.jobs[id], now)
  {
    hide IsPick, IsOffered, IsOfferedOnce, DispatchedTo, LeftWaiting;
    if id in s.jobs && s.jobs[id].status == Queued && s.jobs[id].assignedTo == "" {
      OfferMeans(s, id, now, s');
      OfferedIsOnce(s, s.jobs[id], s'.jobs[id], now);
    } else {
      UnofferedStays(s, id, now, s');
    }
  }

  lemma {:induction false} VisitsOfferOnce(s: Store, order: seq<string>, now: int, s': Store)
    requires WellKeyed(s) && QueueVisits(s, order, now, s')
    requires forall i, j :: 0 <= i < j < |order| ==> order[i] != order[j]
    ensures s'.jobs.Keys == s.jobs.Keys && WellKeyed(s')
    ensures forall id :: id in s.jobs ==>
      if id in order then IsOfferedOnce(s.jobs[id], s'.jobs[id], now) else s'.jobs[id] == s.jobs[id]
    decreases |order|
  {
    hide QueueVisit, IsOfferedOnce, WellKeyed;
    if order != [] {
      var m: Store :| QueueVisits(s, Init(order), now, m) && QueueVisit(m, Last(order), now, s');
      VisitsOfferOnce(s, Init(order), now, m);
      VisitOffersOnce(m, Last(order), now, s');
      assert Last(order) !in Init(order) && order == Init(order) + [Last(order)];
    }
  }

  /** The scheduling loop offers every job once. */
  lemma QueueOffersOnce(s: Store, now: int, s': Store, id: string)
    requires WellKeyed(s) && SchedulesQueue(s, now, s') && id in s.jobs
    ensures id in s'.jobs && IsOfferedOnce(s.jobs[id], s'.jobs[id], now)
  {
    hide QueueVisits, IsOfferedOnce, WellKeyed;
    var order :| IsOrder(order, s.jobs.Keys) && QueueVisits(s, order, now, s');
    VisitsOfferOnce(s, order, now, s');
  }

  lemma QueueOffersAllOnce(s: Store, now: int, s': Store)
    requires WellKeyed(s) && SchedulesQueue(s, now, s')
    ensures forall id :: id in s.jobs ==> id in s'.jobs && IsOfferedOnce(s.jobs[id], s'.jobs[id], now)
  {
    hide SchedulesQueue, IsOfferedOnce, WellKeyed;
    forall id | id in s.jobs ensures id in s'.jobs && IsOfferedOnce(s.jobs[id], s'.jobs[id], now) {
      QueueOffersOnce(s, now, s', id);
    }
  }

  /** What becomes of a job its worker failed: another worker's, if attempts are left and one can take it; back in the
      queue, if only attempts are left; and failed otherwise. */
  ghost predicate IsRetried(s: Store, j: Job, failed: string, now: int, reason: string, out: Job) {
    var attempts := if j.attempts <= 0 then 1 else j.attempts;
    var allowed := if j.maxAttempts <= 0 then 3 else j.maxAttempts;
    && IsSameRequest(j, out) && out.maxAttempts == allowed && out.updatedAt == now
    && if attempts >= allowed then
         && out.status == Failed && out.error == reason && out.lastFailure == reason && out.finishedAt == now
         && out.assignedTo == j.assignedTo && out.attempts == attempts && out.result == j.result
       else
         exists w :: IsBestWorker(s, j.requirements, {failed}, now, w) && GoesTo(out, w, attempts, now, reason)
  }

  predicate GoesTo(out: Job, w: string, attempts: int, now: int, reason: string) {
    && StartsAfresh(out, now) && out.assignedTo == w
    && if w != "" then
         out.status == Scheduled && out.attempts == attempts + 1 && out.lastFailure == reason
       else
         && out.status == Queued && out.attempts == attempts
         && out.lastFailure == reason + "; waiting for capable worker"
  }

  lemma RetryMeans(s: Store, j: Job, failed: string, now: int, reason: string, out: Job)
    requires Reschedules(s, j, failed, now, reason, out)
    ensures IsRetried(s, j, failed, now, reason, out)
  {
    hide IsPick, IsBestWorker;
    var n := Normalized(j);
    if n.attempts < n.maxAttempts {
      var w :| IsPick(s, n.requirements, {failed}, now, w) && out == Retried(n, w, now, reason);
      PickMeans(s, n.requirements, {failed}, now, w);
      assert GoesTo(out, w, n.attempts, now, reason);
    }
  }

  /** A new job carries its request, and allows three attempts unless told otherwise. */
  predicate Carries(j: Job, id: string, req: CreateRequest, now: int) {
    && j.id == id && j.kind == req.kind && j.input == req.input && j.requestedBy == req.requestedBy
    && j.requirements == req.requirements && j.maxAttempts == (if req.maxAttempts <= 0 then 3 else req.maxAttempts)
    && j.cdipState == req.cdipState && j.cdipParent == req.cdipParent && j.cdipIndex == req.cdipIndex
    && j.createdAt == now && StartsAfresh(j, now)
  }

  predicate IsPlacedOn(j: Job, w: string) {
    j.status == Scheduled && j.assignedTo == w && j.attempts == 1 && j.lastFailure == ""
  }

  predicate IsLeftWaiting(j: Job, w: string, note: string) {
    j.status == Queued && j.assignedTo == w && j.attempts == 0 && j.lastFailure == note
  }

  /** Where a new job goes: to its coordinator, to the worker it names if that can take it, or to the best worker; and
      where it cannot, it waits for any worker. */
  ghost predicate IsPlaced(s: Store, req: CreateRequest, now: int, j: Job) {
    if req.noAutoAssign then
      IsLeftWaiting(j, req.assignedTo, "waiting for coordinator")
    else if req.assignedTo != "" then
      if CanTake(s, req.assignedTo, req.requirements, now) then IsPlacedOn(j, req.assignedTo)
      else IsLeftWaiting(j, "", WaitNote(s, req.requirements, now))
    else
      exists w :: IsBestWorker(s, req.requirements, {}, now, w)
        && if w != "" then IsPlacedOn(j, w) else IsLeftWaiting(j, "", WaitNote(s, req.requirements, now))
  }

  lemma PlacementMeans(s: Store, id: string, req: CreateRequest, now: int, j: Job)
    requires Places(s, id, req, now, j)
    ensures Carries(j, id, req, now) && IsPlaced(s, req, now, j)
  {
    hide IsPick, IsBestWorker, WaitingReason, WaitNote, Eligible, CanTake;
    WaitNoteMeans(s, req.requirements, now);
    EligibleMeans(s, req.assignedTo, req.requirements, now);
    if !req.noAutoAssign && req.assignedTo == "" {
      PickIsPlaced(s, id, req, now, j);
    }
  }

  lemma PickIsPlaced(s: Store, id: string, req: CreateRequest, now: int, j: Job)
    requires Places(s, id, req, now, j) && !req.noAutoAssign && req.assignedTo == ""
    ensures IsPlaced(s, req, now, j)
  {
    hide IsPick, IsBestWorker, WaitingReason, WaitNote, Eligible;
    var unplaced := NewJob(id, req, now).(lastFailure := WaitingReason(s, req.requirements, now));
    var w :| IsPick(s, req.requirements, {}, now, w)
      && j == if w == "" then unplaced else FirstDispatch(NewJob(id, req, now), w);
    PickMeans(s, req.requirements, {}, now, w);
    WaitNoteMeans(s, req.requirements, now);
  }

  // ----- workers that go away -----

  /** No job is scheduled or running on the worker. */
  predicate HasNothing(s: Store, w: string) {
    forall id :: id in s.jobs && s.jobs[id].assignedTo == w ==>
      s.jobs[id].status != Scheduled && s.jobs[id].status != Running
  }

  lemma NoLoadMeans(s: Store, w: string)
    ensures Load(s, w) == 0 <==> HasNothing(s, w)
  {
    if Load(s, w) != 0 {
      var id :| id in ActiveSet(s.jobs, w);
    }
    forall id | id in s.jobs && s.jobs[id].ActiveOn(w) ensures Load(s, w) > 0 {
      ActiveMeansLoad(s, id, w);
    }
  }

  /** A worker stored as online that has been silent for more than 30 seconds. */
  predicate IsSilent(node: Node, now: int) {
    node.role == Worker && node.status == Online && now - node.updatedAt > 30_000_000_000
  }

  /** The worker, taken offline as of now if it was silent. */
  function Silenced(node: Node, now: int): Node {
    if IsSilent(node, now) then node.(status := Offline, updatedAt := now) else node
  }

  /** The job tells why it left its worker, wherever it is now. */
  predicate SaysWhy(j: Job, reason: string, now: int) {
    && j.updatedAt == now
    && (j.status == Failed ==> j.error == reason && j.lastFailure == reason && j.finishedAt == now)
    && (j.status == Scheduled ==> j.lastFailure == reason && StartsAfresh(j, now))
    && (j.status == Queued ==> j.lastFailure == reason + "; waiting for capable worker" && StartsAfresh(j, now))
    && j.status in {Failed, Scheduled, Queued}
  }

  /** Every job that changed between the two states says why. */
  ghost predicate ChangedSayWhy(s: Store, s': Store, reason: string, now: int) {
    && s'.jobs.Keys == s.jobs.Keys
    && forall id :: id in s.jobs && s'.jobs[id] != s.jobs[id] ==> SaysWhy(s'.jobs[id], reason, now)
  }

  lemma VisitSaysWhy(s: Store, id: string, w: string, now: int, reason: string, s': Store)
    requires FailVisit(s, id, w, now, reason, s')
    ensures ChangedSayWhy(s, s', reason, now)
  {
    hide IsPick, Eligible;
  }

  lemma {:induction false} VisitsSayWhy(
      s: Store, order: seq<string>, w: string, now: int, reason: string, s': Store)
    requires FailVisits(s, order, w, now, reason, s')
    ensures ChangedSayWhy(s, s', reason, now)
    decreases |order|
  {
    hide FailVisit, SaysWhy;
    if order != [] {
      var m: Store :| FailVisits(s, Init(order), w, now, reason, m) && FailVisit(m, Last(order), w, now, reason, s');
      VisitsSayWhy(s, Init(order), w, now, reason, m);
      VisitSaysWhy(m, Last(order), w, now, reason, s');
    }
  }

  lemma LosingSaysWhy(s: Store, w: string, now: int, reason: string, s': Store)
    requires w in s.nodes && FailsActiveJobs(TakenOffline(s, w, now), w, now, reason, s')
    ensures ChangedSayWhy(s, s', reason, now)
  {
    hide SaysWhy, FailVisits;
    var off := TakenOffline(s, w, now);
    var order :| IsOrder(order, off.jobs.Keys) && FailVisits(off, order, w, now, reason, s');
    VisitsSayWhy(off, order, w, now, reason, s');
  }

  lemma {:induction false} TimeoutsSayWhy(s: Store, order: seq<string>, now: int, s': Store)
    requires NodeVisits(s, order, now, s')
    ensures ChangedSayWhy(s, s', "worker heartbeat timed out", now)
    decreases |order|
  {
    hide SaysWhy, FailsActiveJobs, Stale;
    if order != [] {
      var m: Store :| NodeVisits(s, Init(order), now, m) && NodeVisit(m, Last(order), now, s');
      TimeoutsSayWhy(s, Init(order), now, m);
      if s' != m {
        LosingSaysWhy(m, Last(order), now, "worker heartbeat timed out", s');
      }
    }
  }

  /** Listing the nodes takes exactly the silent workers offline, as of now, and leaves nothing on them. */
  lemma ListingMeans(s: Store, now: int, s': Store)
    requires Valid(s) && Step(s, Nodes, now, s')
    ensures s'.nodes.Keys == s.nodes.Keys && s'.jobs.Keys == s.jobs.Keys
    ensures forall w :: w in s.nodes ==> s'.nodes[w] == Silenced(s.nodes[w], now)
    ensures forall w :: w in s.nodes && IsSilent(s.nodes[w], now) ==> HasNothing(s', w)
    ensures forall id :: id in s.jobs && s'.jobs[id] != s.jobs[id] ==>
      s.jobs[id].assignedTo in s.nodes && IsSilent(s.nodes[s.jobs[id].assignedTo], now)
    ensures ChangedSayWhy(s, s', "worker heartbeat timed out", now)
  {
    hide Load, WithinSlots, Moves, Sound, HasNothing, Valid, NodeVisits, ChangedSayWhy;
    ListsNodesKeeps(s, now, s');
    var order :| IsOrder(order, s.nodes.Keys) && NodeVisits(s, order, now, s');
    TimeoutsSayWhy(s, order, now, s');
    forall w | w in s.nodes
      ensures s'.nodes[w] == Silenced(s.nodes[w], now)
      ensures IsSilent(s.nodes[w], now) ==> HasNothing(s', w)
    {
      assert KeptOrDropped(s.nodes[w], s'.nodes[w], now);
      NoLoadMeans(s', w);
    }
    forall id | id in s.jobs && s'.jobs[id] != s.jobs[id]
      ensures s.jobs[id].assignedTo in s.nodes && IsSilent(s.nodes[s.jobs[id].assignedTo], now)
    {
      assert TimeoutTouch(s, s.jobs[id], s'.jobs[id], now);
    }
  }

  /** A worker that is marked offline is so as of now, and has nothing left; all other workers and the jobs they have
      stay as they are. */
  lemma OfflineMeans(s: Store, w: string, now: int, s': Store)
    requires Valid(s) && w in s.nodes && Step(s, MarkOffline(w), now, s')
    ensures s'.nodes == s.nodes[w := s.nodes[w].(status := Offline, updatedAt := now)] && s'.jobs.Keys == s.jobs.Keys
    ensures HasNothing(s', w)
    ensures forall id :: id in s.jobs && s'.jobs[id] != s.jobs[id] ==> s.jobs[id].assignedTo == w
    ensures ChangedSayWhy(s, s', "worker went offline", now)
  {
    hide Load, Sound, HasNothing, Valid, FailsActiveJobs, ChangedSayWhy;
    LosingSaysWhy(s, w, now, "worker went offline", s');
    LosingKeeps(s, w, now, WENT_OFFLINE, s');
    NoLoadMeans(s', w);
    forall id | id in s.jobs && s'.jobs[id] != s.jobs[id] ensures s.jobs[id].assignedTo == w {
      assert FailTouch(s.jobs[id], s'.jobs[id], w);
    }
  }

  // ----- operators and coordinators -----

  /** A canceled job says so, and stays so while the queue is offered. */
  lemma CancelIsRecorded(s: Store, id: string, now: int, s': Store)
    requires Valid(s) && Step(s, Cancel(id), now, s') && id in s.jobs
    ensures id in s'.jobs
    ensures s.jobs[id].status in {Queued, Scheduled, Running} ==> s'.jobs[id] == s.jobs[id].(
      status := Canceled, error := "canceled by operator", lastFailure := "", updatedAt := now, finishedAt := now)
    ensures s.jobs[id].status !in {Queued, Scheduled, Running} ==> s' == s
  {
    hide Load, SchedulesQueue, Sound, OnlinePlaced, Eligible;
    EndedOrNot(s.jobs[id]);
    if !s.jobs[id].IsTerminal() {
      var mid := SetJob(s, id, CanceledByOperator(s.jobs[id], now));
      QueueConservesWork(mid, now, s');
      assert QueueTouch(mid.jobs[id], s'.jobs[id]);
    } else {
      assert Cancels(s, id, now, s');
    }
  }

  lemma EndedOrNot(j: Job)
    ensures j.IsTerminal() <==> j.status !in {Queued, Scheduled, Running}
  {
    match j.status
    case Queued =>
    case Scheduled =>
    case Running =>
    case Succeeded =>
    case Failed =>
    case Canceled =>
  }

  /** A closed distributed job failed exactly when its coordinator gave an error. */
  lemma CloseIsRecorded(s: Store, id: string, result: string, error: string, now: int, s': Store)
    requires Step(s, Op.Close(id, result, error), now, s') && id in s.jobs
    ensures s.jobs[id].kind != "model.generate.distributed" ==> s' == s
    ensures s.jobs[id].kind == "model.generate.distributed" ==>
      && id in s'.jobs && s' == s.(jobs := s.jobs[id := s'.jobs[id]])
      && s'.jobs[id].status == (if TrimSpace(error) != "" then Failed else Succeeded)
      && s'.jobs[id].result == RawResult(TrimSpace(result)) && s'.jobs[id].error == TrimSpace(error)
      && s'.jobs[id].finishedAt == now && s'.jobs[id].assignedTo == s.jobs[id].assignedTo
  {
  }
}
